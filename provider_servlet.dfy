/** The provider helpers that touch untrusted upload data and the
 *  availability status: the file name taken from the content-disposition
 *  header, the image type whitelist, the rewrite of the file name to safe
 *  characters, the stored path, and the status whitelist. */
module ProviderServlet {
  import opened JavaLang
  import opened Http
  import opened Store
  import AlertUtil

  const UploadDir := "uploads"
  const StatusAvailable := "Available"
  const StatusRest := "Rest"
  const InvalidStatus := "Invalid status"
  const StatusUpdated := "Status updated successfully"

  /** A multipart part: its content-disposition header, its content type
   *  and its bytes. */
  datatype Part = Part(contentDisposition: Option<string>, contentType: Option<string>, content: seq<byte>)

  // ---------------------------------------------------------------------
  // getFileName

  /** A token of the header names the file when, trimmed, it starts with
   *  "filename". */
  predicate NamesFile(token: string)
  {
    StartsWith(Trim(token), "filename")
  }

  /** The value cut from a naming token: from two past the first '=' up to,
   *  not including, the last character. The cut is taken from the token as
   *  it is, untrimmed, and throws when the bounds cross. */
  function FileNameOf(token: string): Result<string>
  {
    Substring(token, IndexOf(token, '=') + 2, |token| - 1)
  }

  /** The file name getFileName finds among the tokens: the cut of the
   *  first naming token, or "" when none names the file. */
  function FirstFileName(tokens: seq<string>): Result<string>
  {
    if |tokens| == 0 then Ok("")
    else if NamesFile(tokens[0]) then FileNameOf(tokens[0])
    else FirstFileName(tokens[1..])
  }

  /** When no token names the file, the name is empty. */
  lemma {:induction false} NoNamingTokenGivesEmpty(tokens: seq<string>)
    requires forall k | 0 <= k < |tokens| :: !NamesFile(tokens[k])
    ensures FirstFileName(tokens) == Ok("")
  {
    if |tokens| > 0 {
      assert forall k | 0 <= k < |tokens| - 1 :: tokens[1..][k] == tokens[k + 1];
      NoNamingTokenGivesEmpty(tokens[1..]);
    }
  }

  /** Otherwise the name is cut from the first naming token; later tokens,
   *  naming or not, are never looked at. */
  lemma {:induction false} FirstNamingTokenWins(tokens: seq<string>, k: nat)
    requires k < |tokens| && NamesFile(tokens[k])
    requires forall j | 0 <= j < k :: !NamesFile(tokens[j])
    ensures FirstFileName(tokens) == FileNameOf(tokens[k])
  {
    if k > 0 {
      var rest := tokens[1..];
      assert !NamesFile(tokens[0]);
      assert FirstFileName(tokens) == FirstFileName(rest);
      assert rest[k - 1] == tokens[k];
      forall j | 0 <= j < k - 1
        ensures !NamesFile(rest[j])
      {
        assert rest[j] == tokens[j + 1];
      }
      FirstNamingTokenWins(rest, k - 1);
    }
  }

  /** What getFileName gives for a part: a null header throws. */
  function FileName(part: Part): Result<string>
  {
    if part.contentDisposition.None? then Thrown(NullPointer)
    else FirstFileName(Split(part.contentDisposition.value, ';'))
  }

  /** getFileName: scan the ';'-separated tokens for the first naming one. */
  method GetFileName(part: Part) returns (r: Result<string>)
    ensures part.contentDisposition.None? ==> r == Thrown(NullPointer)
    ensures part.contentDisposition.Some? ==> r == FirstFileName(Split(part.contentDisposition.value, ';'))
  {
    if part.contentDisposition.None? {
      return Thrown(NullPointer);
    }
    var tokens := Split(part.contentDisposition.value, ';');
    for i := 0 to |tokens|
      invariant FirstFileName(tokens) == FirstFileName(tokens[i..])
    {
      assert tokens[i..][1..] == tokens[i + 1..];
      if NamesFile(tokens[i]) {
        return FileNameOf(tokens[i]);
      }
    }
    return Ok("");
  }

  /** A quoted name in the usual header layout comes back as it was sent,
   *  provided it holds no ';'. */
  lemma QuotedFileNameRoundTrip(name: string)
    requires ';' !in name
    ensures FileName(Part(Some("form-data; filename=\"" + name + "\""), None, [])) == Ok(name)
  {
    var token := " filename=\"" + name + "\"";
    var header := "form-data; filename=\"" + name + "\"";
    assert header == "form-data" + [';'] + token;
    SplitTwo("form-data", token, ';');
    DispositionTypeNamesNoFile();
    QuotedTokenCut(name);
    SecondTokenNamesFile("form-data", token);
  }

  lemma SecondTokenNamesFile(x: string, y: string)
    requires !NamesFile(x) && NamesFile(y)
    ensures FirstFileName([x, y]) == FileNameOf(y)
  {
    assert [x, y][1..] == [y];
  }

  /** The leading "form-data" token does not name a file. */
  lemma DispositionTypeNamesNoFile()
    ensures !NamesFile("form-data")
  {
    TrimOfTrimmed("form-data");
    assert "form-data"[1] != "filename"[1];
  }

  /** The token " filename=\"n\"" names a file and is cut back to n. */
  lemma QuotedTokenCut(name: string)
    ensures var token := " filename=\"" + name + "\"";
      NamesFile(token) && FileNameOf(token) == Ok(name)
  {
    var token := " filename=\"" + name + "\"";
    QuotedTokenNamesFile(name);
    QuotedTokenEquals(name);
    assert token[11..|token| - 1] == name;
  }

  lemma QuotedTokenNamesFile(name: string)
    ensures NamesFile(" filename=\"" + name + "\"")
  {
    var rest := "filename=\"" + name + "\"";
    assert " filename=\"" + name + "\"" == [' '] + rest;
    assert rest[0] == 'f' && rest[|rest| - 1] == '"';
    assert rest[..8] == "filename";
    SpacedTokenNamesFile(rest);
  }

  /** One space in front of a trimmed text starting with "filename" still
   *  names the file. */
  lemma SpacedTokenNamesFile(rest: string)
    requires IsTrimmed(rest) && "filename" <= rest
    ensures NamesFile([' '] + rest)
  {
    TrimOfTrimmed(rest);
    TrimDropsLeadingSpace([' '] + rest);
    assert ([' '] + rest)[1..] == rest;
  }

  lemma QuotedTokenEquals(name: string)
    ensures IndexOf(" filename=\"" + name + "\"", '=') == 9
  {
    var token := " filename=\"" + name + "\"";
    assert token[..9] == " filename";
    assert token[9] == '=';
  }

  /** Trimming a string with one leading space and a trimmed rest drops
   *  the space. */
  lemma TrimDropsLeadingSpace(s: string)
    requires |s| >= 2 && s[0] == ' ' && IsTrimmed(s[1..])
    ensures Trim(s) == s[1..]
  {
    assert s[1..][0] == s[1];
    assert s[|s| - 1] == s[1..][|s| - 2];
  }

  /** A header whose tokens never name a file gives the empty name, which
   *  the upload refuses. */
  lemma NoFileNameGivesEmpty(header: string)
    requires forall k | 0 <= k < |Split(header, ';')| :: !NamesFile(Split(header, ';')[k])
    ensures FileName(Part(Some(header), None, [])) == Ok("")
  {
    NoNamingTokenGivesEmpty(Split(header, ';'));
  }

  /** A naming token with nothing after the '=' makes the cut throw. */
  lemma BareFileNameThrows()
    ensures FileNameOf(" filename=") == Thrown(StringIndexOutOfBounds)
  {
    assert IndexOf(" filename=", '=') == 9;
  }

  // ---------------------------------------------------------------------
  // isValidImageType

  /** equalsIgnoreCase against the three image types; null is refused. */
  function IsValidImageType(contentType: Option<string>): (ok: bool)
    ensures ok ==> contentType.Some? && 9 <= |contentType.value| <= 10
  {
    contentType.Some? &&
    (EqualsIgnoreCase(contentType.value, "image/jpeg") ||
     EqualsIgnoreCase(contentType.value, "image/jpg") ||
     EqualsIgnoreCase(contentType.value, "image/png"))
  }

  predicate IsAscii(s: string)
  {
    forall i | 0 <= i < |s| :: s[i] < '\U{80}'
  }

  /** On ASCII text, equalsIgnoreCase against a lower-case constant is
   *  equality after lower-casing. */
  lemma EqualsIgnoreCaseAscii(s: string, t: string)
    requires IsAscii(s)
    ensures EqualsIgnoreCase(s, t) <==> Lower(s) == t
  {
    if Lower(s) == t {
      assert forall i | 0 <= i < |s| :: FoldChar(s[i]) == Lower(s)[i];
    }
    if EqualsIgnoreCase(s, t) {
      assert forall i | 0 <= i < |s| :: Lower(s)[i] == t[i];
    }
  }

  /** For ASCII content types the whitelist is exactly the three types in
   *  any letter case. */
  lemma ImageTypesExactly(contentType: string)
    requires IsAscii(contentType)
    ensures IsValidImageType(Some(contentType)) <==>
            Lower(contentType) in {"image/jpeg", "image/jpg", "image/png"}
  {
    EqualsIgnoreCaseAscii(contentType, "image/jpeg");
    EqualsIgnoreCaseAscii(contentType, "image/jpg");
    EqualsIgnoreCaseAscii(contentType, "image/png");
  }

  /** Upper case passes; other image types and a missing type do not. */
  lemma ImageTypeExamples()
    ensures IsValidImageType(Some("IMAGE/PNG"))
    ensures !IsValidImageType(Some("image/gif"))
    ensures !IsValidImageType(None)
  {
    assert EqualsIgnoreCase("IMAGE/PNG", "image/png");
    assert "image/gif"[6] != "image/jpeg"[6] && "image/gif"[6] != "image/png"[6];
  }

  /** Beyond ASCII, the dotted capital I folds onto 'i' and passes too. */
  lemma DottedCapitalIPasses()
    ensures IsValidImageType(Some("\U{130}mage/png"))
  {
    assert EqualsIgnoreCase("\U{130}mage/png", "image/png");
  }

  // ---------------------------------------------------------------------
  // The file name rewrite and the stored path

  /** The characters the rewrite keeps: [a-zA-Z0-9._-]. */
  predicate SafeChar(c: char)
  {
    'a' <= c <= 'z' || 'A' <= c <= 'Z' || '0' <= c <= '9' || c == '.' || c == '_' || c == '-'
  }

  /** replaceAll("[^a-zA-Z0-9._-]", "_"): every other character becomes '_'. */
  function SanitizeFileName(name: string): (r: string)
    ensures |r| == |name|
    ensures forall i | 0 <= i < |r| :: SafeChar(r[i])
    ensures forall i | 0 <= i < |name| && SafeChar(name[i]) :: r[i] == name[i]
    ensures forall i | 0 <= i < |name| && !SafeChar(name[i]) :: r[i] == '_'
  {
    if name == [] then []
    else
      var rest := SanitizeFileName(name[1..]);
      assert forall i | 1 <= i < |name| :: name[i] == name[1..][i - 1];
      (if SafeChar(name[0]) then [name[0]] else "_") + rest
  }

  /** Rewriting a rewritten name changes nothing. */
  lemma SanitizeIdempotent(name: string)
    ensures SanitizeFileName(SanitizeFileName(name)) == SanitizeFileName(name)
  {
  }

  /** A name already made of safe characters is kept as it is. */
  lemma SanitizeKeepsSafe(name: string)
    requires forall i | 0 <= i < |name| :: SafeChar(name[i])
    ensures SanitizeFileName(name) == name
  {
  }

  /** The file name under the upload directory: the user id, '_', the
   *  rewritten name. */
  function StoredName(userId: int, name: string): string
  {
    IntToString(userId) + "_" + SanitizeFileName(name)
  }

  /** The returned relative path. */
  function StoredPath(userId: int, name: string): string
  {
    UploadDir + "/" + StoredName(userId, name)
  }

  /** The stored name is a single path component: no separator of either
   *  kind, and never "." or "..", since it always holds the '_' after the id.
   *  The returned path therefore lies directly under the upload directory. */
  lemma StoredNameIsOneComponent(userId: int, name: string)
    ensures var n := StoredName(userId, name);
      && '/' !in n && '\\' !in n && n != "." && n != ".." && '_' in n
      && StoredPath(userId, name) == "uploads/" + n
  {
    var id := IntToString(userId);
    var safe := SanitizeFileName(name);
    IntToStringChars(userId);
    assert '/' !in safe && '\\' !in safe;
    var n := StoredName(userId, name);
    assert n == id + ['_'] + safe;
    assert n[|id|] == '_';
    assert '_' !in "..";
  }

  /** Integer.toString writes only digits and a minus sign. */
  lemma IntToStringChars(n: int)
    ensures forall i | 0 <= i < |IntToString(n)| :: IntToString(n)[i] == '-' || IsAsciiDigit(IntToString(n)[i])
    ensures |IntToString(n)| >= 1
  {
  }

  /** A name that tries to climb out of the directory is flattened. */
  lemma TraversalNameFlattened()
    ensures StoredPath(7, "../x") == "uploads/7_.._x"
  {
    var r := SanitizeFileName("../x");
    assert r[0] == '.' && r[1] == '.' && r[2] == '_' && r[3] == 'x';
    assert r == ".._x";
  }

  // ---------------------------------------------------------------------
  // saveUploadedFile

  /** The upload directory: stored files by name. */
  class UploadDirectory {
    var files: map<string, seq<byte>>

    constructor ()
      ensures files == map[]
    {
      files := map[];
    }

    /** part.write into the directory. */
    method Write(name: string, content: seq<byte>)
      modifies this
      ensures files == old(files)[name := content]
    {
      files := files[name := content];
    }
  }

  /** saveUploadedFile: the relative path of the stored file, null when the
   *  name is empty or the type is not an image, nothing written then; the
   *  exceptions of getFileName escape. */
  method SaveUploadedFile(part: Part, userId: int, dir: UploadDirectory) returns (r: Result<Option<string>>)
    modifies dir
    ensures FileName(part).Thrown? ==>
      r == Thrown(FileName(part).exception) && dir.files == old(dir.files)
    ensures FileName(part).Ok? && (FileName(part).value == "" || !IsValidImageType(part.contentType)) ==>
      r == Ok(None) && dir.files == old(dir.files)
    ensures FileName(part).Ok? && FileName(part).value != "" && IsValidImageType(part.contentType) ==>
      var name := StoredName(userId, FileName(part).value);
      r == Ok(Some(StoredPath(userId, FileName(part).value))) &&
      dir.files == old(dir.files)[name := part.content]
  {
    var fileName := GetFileName(part);
    if fileName.Thrown? {
      return Thrown(fileName.exception);
    }
    if fileName.value == "" {
      return Ok(None);
    }
    if !IsValidImageType(part.contentType) {
      return Ok(None);
    }
    var safe := SanitizeFileName(fileName.value);
    var uniqueFileName := IntToString(userId) + "_" + safe;
    dir.Write(uniqueFileName, part.content);
    return Ok(Some(UploadDir + "/" + uniqueFileName));
  }

  // ---------------------------------------------------------------------
  // updateStatus

  /** The availability values updateStatus lets through. */
  predicate AllowedStatus(status: Option<string>)
  {
    status == Some(StatusAvailable) || status == Some(StatusRest)
  }

  /** Every availability value stored is one of the allowed two. */
  predicate AvailabilityWellFormed(details: map<int, string>)
  {
    forall id | id in details :: AllowedStatus(Some(details[id]))
  }

  /** updateStatus: any status but "Available" or "Rest", null included, is
   *  refused before the database is touched; otherwise the provider's row
   *  takes the status and success is answered. */
  method UpdateStatus(req: Request, resp: HttpResponse, db: Database, providerId: int)
    modifies resp, db
    ensures !AllowedStatus(ParamOf(req.params, "status")) ==>
      unchanged(db) &&
      resp.State() == WithJson(old(resp.State()), Alert(AlertUtil.MessageEnvelope(false, Some(InvalidStatus))))
    ensures AllowedStatus(ParamOf(req.params, "status")) ==>
      && db.providerDetails == (if providerId in old(db.providerDetails)
                                then old(db.providerDetails)[providerId := ParamOf(req.params, "status").value]
                                else old(db.providerDetails))
      && db.users == old(db.users) && db.notifications == old(db.notifications)
      && db.nextUserId == old(db.nextUserId)
      && resp.State() == WithJson(old(resp.State()), Alert(AlertUtil.MessageEnvelope(true, Some(StatusUpdated))))
    ensures AvailabilityWellFormed(old(db.providerDetails)) ==> AvailabilityWellFormed(db.providerDetails)
  {
    var status := req.Parameter("status");
    if status.None? || (status.value != StatusAvailable && status.value != StatusRest) {
      AlertUtil.SendError(resp, Some(InvalidStatus));
      return;
    }
    db.UpdateAvailability(providerId, status.value);
    AlertUtil.SendSuccess(resp, Some(StatusUpdated));
  }
}
