/** The decision body of the page handler: from the request method, the raw
    `cep` form field and the outcome of the lookup service, it builds the
    `FormData` record the page template renders. Parsing and rendering the
    template, and the HTTP server around the handler, are not modelled. */
module Form {
  import opened Text
  import opened Cep
  import opened ViaCep

  /** `FormData`: the fields the page shows. */
  datatype FormData = FormData(
    cep: string,
    rua: string,
    bairro: string,
    cidade: string,
    estado: string,
    erro: string,
    sucesso: bool)

  datatype Option<T> = None | Some(value: T)

  /** `FormData{}`: every string empty, no success. */
  const Blank: FormData := FormData("", "", "", "", "", "", false)

  const EmptyInputMessage: string := "Por favor, digite um CEP."
  const InvalidMessage: string := "CEP inválido! Digite apenas números (8 dígitos). Exemplo: 01001000"
  const LookupErrorPrefix: string := "Erro ao consultar CEP: "

  /** `handler` between building the empty record and rendering it. `fetch`
      stands for the GET request and JSON decoding `consultaCEP` performs on
      the string it is given; `sent` is that string, or `None` when
      `consultaCEP` is not called. */
  method Handler(isPost: bool, field: string, fetch: string -> Fetched)
    returns (data: FormData, sent: Option<string>)
    // A page load without a submission shows the blank form and looks nothing up.
    ensures !isPost ==> data == Blank && sent == None
    // Only a submission that passes the format check is looked up, and what
    // is looked up is the trimmed field as typed, not its normal form.
    ensures sent.Some? <==> isPost && TrimSpace(field) != [] && ValidaCEP(TrimSpace(field))
    ensures sent.Some? ==> sent.value == TrimSpace(field)
    // An empty (or all white space) field: the request-a-CEP message and nothing else.
    ensures isPost && TrimSpace(field) == [] ==>
              data == Blank.(erro := EmptyInputMessage)
    // A field that fails the format check is echoed back with the format message.
    ensures isPost && TrimSpace(field) != [] && !ValidaCEP(TrimSpace(field)) ==>
              data == Blank.(erro := InvalidMessage, cep := TrimSpace(field))
    // A failed lookup: its message after the fixed prefix, the field echoed back.
    ensures sent.Some? && ConsultaCEP(fetch(sent.value)).Failure? ==>
              data == Blank.(erro := LookupErrorPrefix + ConsultaCEP(fetch(sent.value)).msg,
                             cep := sent.value)
    // A successful lookup: the address, and the code, as the service sent them.
    ensures sent.Some? && ConsultaCEP(fetch(sent.value)).Found? ==>
              var rec := fetch(sent.value).rec;
              data == FormData(rec.cep, rec.logradouro, rec.bairro, rec.localidade, rec.uf, "", true)
    // Every submission ends in exactly one of an error message and success.
    ensures isPost ==> (data.erro != []) != data.sucesso
    // Success only for a valid code the service found.
    ensures data.sucesso ==>
              (sent.Some? && ValidaCEP(sent.value)
               && fetch(sent.value).Decoded? && !fetch(sent.value).rec.erro)
    // A code the service flags as unknown reads "not found", the field echoed back.
    ensures sent.Some? && fetch(sent.value).Decoded? && fetch(sent.value).rec.erro ==>
              data == Blank.(erro := LookupErrorPrefix + NotFoundMessage, cep := sent.value)
    // The blank form is shown exactly when nothing was submitted.
    ensures data == Blank <==> !isPost
  {
    data := Blank;
    sent := None;
    if isPost {
      var cep := TrimSpace(field);
      if cep == [] {
        data := data.(erro := EmptyInputMessage);
      } else if !ValidaCEP(cep) {
        data := data.(erro := InvalidMessage);
        data := data.(cep := cep);
      } else {
        sent := Some(cep);
        var viaCEP := ConsultaCEP(fetch(cep));
        match viaCEP
        case Failure(msg) =>
          data := data.(erro := LookupErrorPrefix + msg);
          data := data.(cep := cep);
        case Found(rec) =>
          data := data.(cep := rec.cep);
          data := data.(rua := rec.logradouro);
          data := data.(bairro := rec.bairro);
          data := data.(cidade := rec.localidade);
          data := data.(estado := rec.uf);
          data := data.(sucesso := true);
      }
    }
  }
}
