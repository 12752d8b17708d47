/** The response emitter: the output encoding applied to every message and
 *  the three ways a handler answers with a JSON envelope. */
module AlertUtil {
  import opened JavaLang
  import opened Http

  /** The five replaceAll calls, in the order the code makes them. */
  function SanitizeOutput(input: Option<string>): (r: Option<string>)
    ensures r.None? <==> input.None?
  {
    match input
    case None => None
    case Some(s) =>
      var s1 := ReplaceAll(s, "<", "&lt;");
      var s2 := ReplaceAll(s1, ">", "&gt;");
      var s3 := ReplaceAll(s2, "&", "&amp;");
      var s4 := ReplaceAll(s3, "\"", "&quot;");
      Some(ReplaceAll(s4, "'", "&#x27;"))
  }

  /** None of the four characters that open or close markup or attributes. */
  predicate NoMarkup(s: string)
  {
    '<' !in s && '>' !in s && '"' !in s && '\'' !in s
  }

  /** Whatever the message, the encoded text has no <, >, " or '. */
  lemma SanitizeOutputNoMarkup(s: string)
    ensures NoMarkup(SanitizeOutput(Some(s)).value)
  {
    var s1 := ReplaceAll(s, "<", "&lt;");
    var s2 := ReplaceAll(s1, ">", "&gt;");
    var s3 := ReplaceAll(s2, "&", "&amp;");
    var s4 := ReplaceAll(s3, "\"", "&quot;");
    var s5 := ReplaceAll(s4, "'", "&#x27;");
    ReplaceAllRemovesChar(s, '<', "&lt;");
    ReplaceAllKeepsAbsent(s1, ">", "&gt;", '<');
    ReplaceAllRemovesChar(s1, '>', "&gt;");
    ReplaceAllKeepsAbsent(s2, "&", "&amp;", '<');
    ReplaceAllKeepsAbsent(s2, "&", "&amp;", '>');
    ReplaceAllKeepsAbsent(s3, "\"", "&quot;", '<');
    ReplaceAllKeepsAbsent(s3, "\"", "&quot;", '>');
    ReplaceAllRemovesChar(s3, '"', "&quot;");
    ReplaceAllKeepsAbsent(s4, "'", "&#x27;", '<');
    ReplaceAllKeepsAbsent(s4, "'", "&#x27;", '>');
    ReplaceAllKeepsAbsent(s4, "'", "&#x27;", '"');
    ReplaceAllRemovesChar(s4, '\'', "&#x27;");
  }

  /** Because & is replaced after < and >, their entities are escaped again. */
  lemma SanitizeOutputEscapesTwice()
    ensures SanitizeOutput(Some("<")) == Some("&amp;lt;")
  {
    var s1 := ReplaceAll("<", "<", "&lt;");
    assert s1 == "&lt;" + ReplaceAll([], "<", "&lt;");
    var s2 := ReplaceAll(s1, ">", "&gt;");
    ReplaceAllAbsentChar(s1, '>', "&gt;");
    var s3 := ReplaceAll(s2, "&", "&amp;");
    assert s2[1..] == "lt;";
    assert s3 == "&amp;" + ReplaceAll("lt;", "&", "&amp;");
    ReplaceAllAbsentChar("lt;", '&', "&amp;");
    assert s3 == "&amp;lt;";
    ReplaceAllAbsentChar(s3, '"', "&quot;");
    ReplaceAllAbsentChar(s3, '\'', "&#x27;");
  }

  /** A message-only envelope: the message is encoded first. */
  function MessageEnvelope(success: bool, message: Option<string>): (e: Envelope)
    ensures e.Response? && e.success == success
    ensures e.message.None? <==> message.None?
    ensures e.message.Some? ==> NoMarkup(e.message.value)
  {
    SanitizeOutputNoMarkup(if message.Some? then message.value else "");
    Response(success, SanitizeOutput(message))
  }

  /** sendError: {success: false, message} as UTF-8 JSON. */
  method SendError(resp: HttpResponse, message: Option<string>)
    modifies resp
    ensures resp.State() == WithJson(old(resp.State()), Alert(MessageEnvelope(false, message)))
  {
    resp.SetContentType(JsonContentType);
    resp.SetCharacterEncoding(Utf8);
    resp.Write(Alert(Response(false, SanitizeOutput(message))));
  }

  /** sendSuccess(response, String): {success: true, message} as UTF-8 JSON. */
  method SendSuccess(resp: HttpResponse, message: Option<string>)
    modifies resp
    ensures resp.State() == WithJson(old(resp.State()), Alert(MessageEnvelope(true, message)))
  {
    resp.SetContentType(JsonContentType);
    resp.SetCharacterEncoding(Utf8);
    resp.Write(Alert(Response(true, SanitizeOutput(message))));
  }

  /** sendSuccess(response, Object): {success: true, message: "Success",
   *  data}, the data written as given, without encoding. */
  method SendSuccessData(resp: HttpResponse, data: Json)
    modifies resp
    ensures resp.State() == WithJson(old(resp.State()), Alert(DataResponse(true, Some("Success"), data)))
  {
    resp.SetContentType(JsonContentType);
    resp.SetCharacterEncoding(Utf8);
    resp.Write(Alert(DataResponse(true, Some("Success"), data)));
  }
}
