/** `validaCEP`: the format check for a Brazilian postal code (CEP). The code
    deletes every space and every hyphen, then matches what remains against
    `^\d{8}$`, where `\d` is an ASCII digit and `$` anchors at the very end
    of the text. */
module Cep {
  import opened Text

  /** The two `strings.ReplaceAll` calls, spaces first, then hyphens. */
  function Strip(s: string): (r: string)
    ensures |r| <= |s|
    ensures forall x :: x in r <==> x in s && x != ' ' && x != '-'
  {
    RemoveAllMembers(s, ' ');
    RemoveAllMembers(RemoveAll(s, ' '), '-');
    RemoveAll(RemoveAll(s, ' '), '-')
  }

  /** Reference definition of the normalisation: one pass keeping every
      character that is neither a space nor a hyphen. */
  function Keep(s: string): (r: string)
    ensures |r| <= |s|
  {
    if s == [] then []
    else if s[0] == ' ' || s[0] == '-' then Keep(s[1..])
    else [s[0]] + Keep(s[1..])
  }

  /** `validaCEP(cep)`. */
  function ValidaCEP(s: string): (b: bool)
    ensures b <==> |Keep(s)| == 8 && AllDigits(Keep(s))
  {
    StripIsKeep(s);
    var t := Strip(s);
    |t| == 8 && AllDigits(t)
  }

  /** Deleting spaces, then hyphens, is the single-pass filter. */
  lemma {:induction false} StripIsKeep(s: string)
    ensures Strip(s) == Keep(s)
  {
    if s != [] {
      StripIsKeep(s[1..]);
      if s[0] != ' ' {
        assert RemoveAll(s, ' ') == [s[0]] + RemoveAll(s[1..], ' ');
        if s[0] != '-' {
          assert Strip(s) == [s[0]] + Strip(s[1..]);
        }
      }
    }
  }

  /** Normalising twice is normalising once. */
  lemma StripIdempotent(s: string)
    ensures Strip(Strip(s)) == Strip(s)
  {
    var t := Strip(s);
    RemoveAllMembers(s, ' ');
    RemoveAllMembers(RemoveAll(s, ' '), '-');
    RemoveAllMembers(t, ' ');
    RemoveAllMembers(t, '-');
  }

  /** Validating the normalised string gives the same verdict. */
  lemma ValidaCEPStripInvariant(s: string)
    ensures ValidaCEP(Strip(s)) == ValidaCEP(s)
  {
    StripIdempotent(s);
  }

  /** A string holding any character other than a digit, a space or a hyphen
      (a tab, a trailing newline, a letter) is rejected. */
  lemma RejectsForeignChar(s: string, k: nat)
    requires k < |s| && !IsDigit(s[k]) && s[k] != ' ' && s[k] != '-'
    ensures !ValidaCEP(s)
  {
    var t := Strip(s);
    RemoveAllMembers(s, ' ');
    RemoveAllMembers(RemoveAll(s, ' '), '-');
    assert s[k] in s;
    assert s[k] in t;
    var i :| 0 <= i < |t| && t[i] == s[k];
  }

  /** An accepted string consists of digits, spaces and hyphens only, holds at
      least eight characters, and normalises to eight digits. */
  lemma AcceptedShape(s: string)
    requires ValidaCEP(s)
    ensures forall k :: 0 <= k < |s| ==> IsDigit(s[k]) || s[k] == ' ' || s[k] == '-'
    ensures |s| >= 8
    ensures |Keep(s)| == 8 && AllDigits(Keep(s))
  {
    forall k | 0 <= k < |s| ensures IsDigit(s[k]) || s[k] == ' ' || s[k] == '-' {
      if !IsDigit(s[k]) && s[k] != ' ' && s[k] != '-' {
        RejectsForeignChar(s, k);
      }
    }
    StripIsKeep(s);
  }

  /** Eight ASCII digits are accepted and are already in normal form. */
  lemma EightDigitsAccepted(s: string)
    requires |s| == 8 && AllDigits(s)
    ensures ValidaCEP(s) && Strip(s) == s
  {
    RemoveAllMembers(s, ' ');
    RemoveAllMembers(s, '-');
  }

  /** The filter distributes over concatenation. */
  lemma {:induction false} KeepAppend(a: string, b: string)
    ensures Keep(a + b) == Keep(a) + Keep(b)
  {
    if a == [] {
      assert a + b == b;
    } else {
      assert (a + b)[0] == a[0];
      assert (a + b)[1..] == a[1..] + b;
      KeepAppend(a[1..], b);
    }
  }

  /** A string of digits alone is accepted exactly when it has eight of them:
      seven or nine digits, or none, are rejected. */
  lemma DigitsOnly(s: string)
    requires AllDigits(s)
    ensures ValidaCEP(s) <==> |s| == 8
  {
    RemoveAllMembers(s, ' ');
    RemoveAllMembers(s, '-');
  }

  /** A code written the usual way, five digits, a hyphen and three digits, is
      accepted and normalises to its eight digits. */
  lemma HyphenatedAccepted(front: string, back: string)
    requires |front| == 5 && |back| == 3 && AllDigits(front) && AllDigits(back)
    ensures Strip(front + "-" + back) == front + back
    ensures ValidaCEP(front + "-" + back)
  {
    var s := front + "-" + back;
    StripIsKeep(s);
    KeepAppend(front + "-", back);
    KeepAppend(front, "-");
    StripIsKeep(front);
    StripIsKeep(back);
    RemoveAllMembers(front, ' ');
    RemoveAllMembers(front, '-');
    RemoveAllMembers(back, ' ');
    RemoveAllMembers(back, '-');
    assert Keep("-") == [];
    EightDigitsAccepted(front + back);
  }

  /** Praça da Sé's code in its plain spelling is accepted. */
  lemma PlainExample()
    ensures ValidaCEP("01001000")
  {
    DigitsOnly("01001000");
  }

  /** The same code with its hyphen is accepted. */
  lemma HyphenatedExample()
    ensures ValidaCEP("01001-000")
  {
    HyphenatedAccepted("01001", "000");
    assert "01001" + "-" + "000" == "01001-000";
  }

  /** Seven digits and the empty string are rejected. */
  lemma ShortExamples()
    ensures !ValidaCEP("0100100")
    ensures !ValidaCEP("")
  {
    DigitsOnly("0100100");
    DigitsOnly("");
  }

  /** A letter, or a trailing newline, makes the code invalid. */
  lemma ForeignCharExamples()
    ensures !ValidaCEP("0100100a")
    ensures !ValidaCEP("01001000\n")
  {
    RejectsForeignChar("0100100a", 7);
    RejectsForeignChar("01001000\n", 8);
  }
}
