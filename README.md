# ViaCEP lookup form — Dafny model

The program is a one-page web form. A visitor types a Brazilian postal code
(CEP). The handler trims the field, checks its format with `validaCEP`, asks
the ViaCEP service for the address through `consultaCEP`, and fills a
`FormData` record that the page template renders. This project models that
decision logic and proves what it promises:

- `text.dfy` (module `Text`): the Go library behaviour the handler relies on.
  This covers `strings.TrimSpace` over `unicode.IsSpace` and
  `strings.ReplaceAll` with a one-character pattern and an empty replacement.
  It also covers the `%d` formatting of the HTTP status code. White space is
  Go's `unicode.IsSpace` set: tab, newline, vertical tab, form feed, carriage
  return, space, U+0085, U+00A0, U+1680, U+2000 to U+200A, U+2028, U+2029,
  U+202F, U+205F and U+3000.
- `cep.dfy` (module `Cep`): `validaCEP`. It deletes spaces, then hyphens, and
  accepts exactly eight ASCII digits. `Keep` is a one-pass reference filter,
  and the two-pass deletion is proved equal to it.
- `viacep.dfy` (module `ViaCep`): the datatype `ViaCEPResponse`
  (APIVIACEP/apiviacep.go:14-21) and `consultaCEP`, applied to the outcome of
  the fetch. That outcome is a transport error, a non-200 status, a decode
  error, or a decoded record.
- `form.dfy` (module `Form`): the datatype `FormData`
  (APIVIACEP/apiviacep.go:24-32), the constant `Blank` for `FormData{}`
  (line 268), and the body of `handler` as a method. It starts from the
  blank record and assigns fields branch by branch. The
  `sent` out-parameter records the string handed to `consultaCEP`, or that
  none was.

Two behaviours of the handler are easy to misread:
- the string looked up is the trimmed field as typed, so `01001-000` is sent
  with its hyphen, not the 8-digit normal form;
- on success the form shows the CEP from the service's record, not the
  normalised input.

## Model

| member | source | states |
|---|---|---|
| Text.IsSpace | APIVIACEP/apiviacep.go:271 | Go's white space test; among ASCII characters it holds exactly for space and tab through carriage return, and never for a digit or a hyphen |
| Text.LeadingSpace | APIVIACEP/apiviacep.go:271 | the count of leading characters dropped: every one of them is white space and the next character, if any, is not |
| Text.TrailingSpace | APIVIACEP/apiviacep.go:271 | where the trailing run begins: every character from there on is white space and the one before it, if any, is not |
| Text.TrimLeft | APIVIACEP/apiviacep.go:271 | the result is a suffix of the input, everything dropped is white space, and it does not start with white space |
| Text.TrimRight | APIVIACEP/apiviacep.go:271 | the result is a prefix of the input, everything dropped is white space, and it does not end with white space |
| Text.TrimSpace | APIVIACEP/apiviacep.go:271 | the trimmed field is no longer than the input and has no white space at either end |
| Text.TrimSpaceSlice | APIVIACEP/apiviacep.go:271 | the trimmed field is a contiguous slice of the input with only white space outside it |
| Text.TrimSpaceEmptyIff | APIVIACEP/apiviacep.go:271-273 | the trimmed field is empty exactly when the field is all white space, which is when the "please enter a CEP" branch is taken |
| Text.TrimSpaceIdempotent | APIVIACEP/apiviacep.go:271 | trimming a trimmed field changes nothing |
| Text.RemoveAll | APIVIACEP/apiviacep.go:224-225 | deleting a character never lengthens the string |
| Text.RemoveAllMembers | APIVIACEP/apiviacep.go:224-225 | after `ReplaceAll(s, c, "")` no `c` is left, every other character survives, and a string without `c` is unchanged |
| Text.RemoveAllAppend | APIVIACEP/apiviacep.go:224-225 | deleting a character from a concatenation deletes it from each part |
| Text.IsDigit | APIVIACEP/apiviacep.go:228 | `\d` holds exactly for the ten ASCII digits `0`-`9` |
| Text.Decimal | APIVIACEP/apiviacep.go:243 | the numeral is non-empty, all digits, and starts with `0` only when the number is 0, which is written exactly `0` |
| Text.DecimalValue | APIVIACEP/apiviacep.go:243 | reading the numeral back gives the number |
| Text.FormatInt | APIVIACEP/apiviacep.go:243 | `%d` writes digits that read back as the value, after a minus sign for a negative value; no leading zero, and 0 is written exactly `0` |
| Cep.Strip | APIVIACEP/apiviacep.go:224-225 | the two `ReplaceAll` calls leave no space and no hyphen, keep every other character, and never lengthen the string |
| Cep.ValidaCEP | APIVIACEP/apiviacep.go:222-230 | `validaCEP` accepts exactly when the string, with every space and hyphen dropped, is eight ASCII digits |
| Cep.Keep | APIVIACEP/apiviacep.go:224-225 | the one-pass filter never lengthens its input |
| Cep.StripIsKeep | APIVIACEP/apiviacep.go:224-225 | deleting spaces and then hyphens equals one pass that keeps every character that is neither |
| Cep.StripIdempotent | APIVIACEP/apiviacep.go:224-225 | normalising twice equals normalising once |
| Cep.ValidaCEPStripInvariant | APIVIACEP/apiviacep.go:222-229 | validating the normalised string gives the same verdict as validating the original |
| Cep.RejectsForeignChar | APIVIACEP/apiviacep.go:224-229 | a string holding any character other than an ASCII digit, a space or a hyphen (tab, trailing newline, letter) is rejected |
| Cep.AcceptedShape | APIVIACEP/apiviacep.go:222-229 | an accepted string holds only digits, spaces and hyphens, has at least 8 characters, and filters to exactly 8 digits |
| Cep.EightDigitsAccepted | APIVIACEP/apiviacep.go:222-229 | any 8 ASCII digits are accepted and are their own normal form |
| Cep.KeepAppend | APIVIACEP/apiviacep.go:224-225 | the filter distributes over concatenation |
| Cep.DigitsOnly | APIVIACEP/apiviacep.go:227-229 | a string of digits alone is accepted exactly when it has eight of them |
| Cep.HyphenatedAccepted | APIVIACEP/apiviacep.go:222-229 | any code written as five digits, a hyphen and three digits is accepted and normalises to its eight digits |
| Cep.PlainExample | APIVIACEP/apiviacep.go:222-229 | `01001000` is accepted |
| Cep.HyphenatedExample | APIVIACEP/apiviacep.go:222-229 | `01001-000` is accepted |
| Cep.ShortExamples | APIVIACEP/apiviacep.go:222-229 | `0100100` (seven digits) and the empty string are rejected |
| Cep.ForeignCharExamples | APIVIACEP/apiviacep.go:222-229 | `0100100a` and `01001000` followed by a newline are rejected |
| ViaCep.ConsultaCEP | APIVIACEP/apiviacep.go:236-256 | the result is a record exactly when a record was decoded without the not-found flag, and it is that record unchanged; a flagged record gives "CEP não encontrado"; every failure message is non-empty, and transport and decode messages end with their cause |
| ViaCep.BadStatusMessage | APIVIACEP/apiviacep.go:242-243 | the non-200 message is the fixed prefix followed by digits that read back as the status code, with no leading zero; status 0 is written exactly `0` |
| Form.Handler | APIVIACEP/apiviacep.go:268-293 | each of the five cases gives its `FormData`: blank for a non-POST, the empty-input message, the invalid-format message with the trimmed field echoed, the lookup error with the field echoed, or the service's address with success. Only a valid trimmed field is looked up, verbatim. Every POST ends in exactly one of an error and success. Success implies a valid code and a record not flagged as missing. The blank form appears exactly for a non-POST |

## Left out

- The HTTP server, routing, `main` and the favicon handler: process plumbing with no decision logic.
- The GET request and JSON decoding inside `consultaCEP`: network I/O. Their outcome is the `Fetched` value passed to `ViaCep.ConsultaCEP`, and the handler receives them as the function `fetch`.
- The text of Go's `%v` rendering of transport and decoder errors: it is an opaque `cause` string.
- The URL built from the CEP: it only feeds the network call.
- Template parsing, rendering and the HTTP 500 path on a template error: presentation and library calls.
- The browser-side input mask in the page's JavaScript: it does not run in this program.
- Logging.
- Concurrency between requests: the handler keeps no shared state.
- The regular-expression engine: `^\d{8}$` is stated as "eight characters, each an ASCII digit". This is what RE2 matches, since `\d` is ASCII-only and `$` without the multi-line flag anchors at the end of the text.
- Byte-level strings: Go strings are UTF-8 bytes, and the model uses sequences of Unicode code points. Space and hyphen are single ASCII bytes, so deleting them is the same either way. Invalid UTF-8 is not modelled.
