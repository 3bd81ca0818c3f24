/** The address record returned by the ViaCEP service and `consultaCEP`, the
    client that turns one fetch of that service into either a record or an
    error message. The HTTP GET and the JSON decoding are not modelled: their
    outcome is a `Fetched` value handed in by the caller. */
module ViaCep {
  import opened Text

  /** `ViaCEPResponse`: the decoded JSON body. `erro` is the service's
      "not found" flag. */
  datatype ViaCEPResponse = ViaCEPResponse(
    cep: string,
    logradouro: string,
    bairro: string,
    localidade: string,
    uf: string,
    erro: bool)

  /** What the GET request and the decoder produced: a transport error (its
      text as Go's `%v` prints it), a status other than 200, a body that did
      not decode (the decoder's error text), or a decoded record. */
  datatype Fetched =
    | RequestFailed(cause: string)
    | BadStatus(status: NotOK)
    | DecodeFailed(cause: string)
    | Decoded(rec: ViaCEPResponse)

  /** A status code other than `http.StatusOK`: the only ones that reach the
      status branch of `consultaCEP`. */
  type NotOK = s: int | s != 200 witness 404

  /** The `(*ViaCEPResponse, error)` pair `consultaCEP` returns: exactly one of
      the two is present. */
  datatype Lookup = Failure(msg: string) | Found(rec: ViaCEPResponse)

  const NotFoundMessage: string := "CEP não encontrado"
  const RequestPrefix: string := "erro ao fazer requisição: "
  const StatusPrefix: string := "erro na resposta da API: status "
  const DecodePrefix: string := "erro ao decodificar JSON: "

  /** `consultaCEP` after the network call: each failure becomes a message,
      a record flagged as not found becomes the fixed not-found message, and
      any other record is passed on unchanged. */
  function ConsultaCEP(f: Fetched): (r: Lookup)
    ensures r.Found? <==> f.Decoded? && !f.rec.erro
    ensures r.Found? ==> r.rec == f.rec
    ensures f.Decoded? && f.rec.erro ==> r == Failure(NotFoundMessage)
    ensures r.Failure? ==> r.msg != []
    ensures f.RequestFailed? || f.DecodeFailed? ==>
              |f.cause| <= |r.msg| && r.msg[|r.msg| - |f.cause|..] == f.cause
  {
    match f
    case RequestFailed(cause) => Failure(RequestPrefix + cause)
    case BadStatus(status) => Failure(StatusPrefix + FormatInt(status))
    case DecodeFailed(cause) => Failure(DecodePrefix + cause)
    case Decoded(rec) => if rec.erro then Failure(NotFoundMessage) else Found(rec)
  }

  /** The status message ends in the decimal status code, which reads back
      as the code the service answered with. */
  lemma BadStatusMessage(status: NotOK)
    requires status >= 0
    ensures var m := ConsultaCEP(BadStatus(status)).msg;
      |m| > |StatusPrefix| && m[..|StatusPrefix|] == StatusPrefix
      && AllDigits(m[|StatusPrefix|..])
      && Value(m[|StatusPrefix|..]) == status
      && (m[|StatusPrefix|] == '0' ==> status == 0 && m[|StatusPrefix|..] == "0")
  {
  }
}
