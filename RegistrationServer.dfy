/**
 * The server side of the registration: the upload middleware's file naming and size cap,
 * the record shape of the registration collection, and the `/register` handler, which
 * checks for the file, uploads it to the media store, deletes the local copy and inserts
 * the record.
 *
 * The media store, the database and the clock are parameters: each call's outcome is
 * given to the handler, and the handler's state (local files, remote assets, records and
 * the order of its effects) is a class.
 */
module RegistrationServer {
  import opened Wrappers
  import RegistrationForm

  /** The directory the upload middleware writes into. */
  const UploadDir: string := "uploads"

  /** The only multipart field the upload middleware takes a file from. */
  const UploadField: string := "image"

  /** The upload middleware's file size cap, in bytes. */
  const MaxUploadSize: nat := 5 * 1024 * 1024

  // ---------------------------------------------------------------------------------
  // Decimal rendering of `Date.now()`

  predicate IsDigit(c: char) {
    '0' <= c <= '9'
  }

  function DigitChar(d: nat): (c: char)
    requires d < 10
    ensures IsDigit(c)
  {
    (48 + d) as char
  }

  function DigitValue(c: char): (d: nat)
    requires IsDigit(c)
    ensures d < 10 && DigitChar(d) == c
  {
    (c as int - 48) as nat
  }

  /** The decimal string of a non-negative integer, as `number + string` renders it. */
  function Decimal(n: nat): (s: string)
    ensures |s| >= 1
    ensures forall i :: 0 <= i < |s| ==> IsDigit(s[i])
    ensures s[0] == '0' ==> n == 0 && s == "0"
    decreases n
  {
    if n < 10 then [DigitChar(n)] else Decimal(n / 10) + [DigitChar(n % 10)]
  }

  /** Reads back a string of digits as a number. */
  function ParseDecimal(s: string): nat
    requires forall i :: 0 <= i < |s| ==> IsDigit(s[i])
  {
    if s == [] then 0 else ParseDecimal(s[..|s| - 1]) * 10 + DigitValue(s[|s| - 1])
  }

  lemma {:induction false} ParseDecimalOfDecimal(n: nat)
    ensures ParseDecimal(Decimal(n)) == n
    decreases n
  {
    var s := Decimal(n);
    if n >= 10 {
      ParseDecimalOfDecimal(n / 10);
      assert s[..|s| - 1] == Decimal(n / 10);
    }
  }

  // ---------------------------------------------------------------------------------
  // Node's posix `path.extname`

  /** The path without any trailing slashes. */
  function TrimTrailingSlashes(p: string): (r: string)
    ensures |r| <= |p| && r == p[..|r|]
    ensures r == [] || r[|r| - 1] != '/'
  {
    if p != [] && p[|p| - 1] == '/' then TrimTrailingSlashes(p[..|p| - 1]) else p
  }

  /** What follows the last slash (the whole string if there is none). */
  function AfterLastSlash(p: string): (r: string)
    ensures |r| <= |p| && r == p[|p| - |r|..]
    ensures '/' !in r
  {
    if p == [] || p[|p| - 1] == '/' then [] else AfterLastSlash(p[..|p| - 1]) + [p[|p| - 1]]
  }

  /** The last portion of a path, trailing slashes ignored. */
  function BaseName(p: string): string {
    AfterLastSlash(TrimTrailingSlashes(p))
  }

  /** The index of the last '.' of `s`, if any. */
  function LastDot(s: string): (r: Option<nat>)
    ensures r.None? ==> '.' !in s
    ensures r.Some? ==> r.value < |s| && s[r.value] == '.' && '.' !in s[r.value + 1..]
  {
    if s == [] then None
    else if s[|s| - 1] == '.' then Some(|s| - 1)
    else
      var r := LastDot(s[..|s| - 1]);
      assert r.Some? ==> s[r.value + 1..] == s[..|s| - 1][r.value + 1..] + [s[|s| - 1]];
      assert r.None? ==> s == s[..|s| - 1] + [s[|s| - 1]];
      r
  }

  /**
   * `path.extname`: from the last '.' of the last portion to its end; empty when that
   * portion has no '.', when its only '.' that could start the extension is its first
   * character, or when it is "..".
   */
  function ExtName(p: string): (e: string)
    ensures e == [] || (e[0] == '.' && '/' !in e && '.' !in e[1..])
    ensures e != [] ==> |e| <= |BaseName(p)| && e == BaseName(p)[|BaseName(p)| - |e|..]
  {
    var b := BaseName(p);
    match LastDot(b)
    case None => ""
    case Some(j) => if j == 0 || b == ".." then "" else b[j..]
  }

  /**
   * The middleware's filename rule: `Date.now() + path.extname(file.originalname)`. The
   * name is a single path portion that starts with a digit, whatever the original name.
   */
  function StoredName(now: nat, originalName: string): (n: string)
    ensures n != [] && IsDigit(n[0])
    ensures '/' !in n
  {
    var d, e := Decimal(now), ExtName(originalName);
    assert '/' !in d by {
      assert forall i :: 0 <= i < |d| ==> IsDigit(d[i]);
    }
    d + e
  }

  lemma {:induction false} AfterLastSlashOfPortion(dir: string, name: string)
    requires '/' !in name
    ensures AfterLastSlash(dir + "/" + name) == name
  {
    if name == [] {
      assert (dir + "/" + name)[|dir + "/" + name| - 1] == '/';
    } else {
      var p := dir + "/" + name;
      assert p[..|p| - 1] == dir + "/" + name[..|name| - 1];
      assert p[|p| - 1] == name[|name| - 1];
      assert '/' !in name[..|name| - 1];
      AfterLastSlashOfPortion(dir, name[..|name| - 1]);
      assert name == name[..|name| - 1] + [name[|name| - 1]];
    }
  }

  /**
   * The path the middleware stores the file at: inside the upload directory, with the
   * stored name as its last portion.
   */
  function StoredPath(now: nat, originalName: string): (p: string)
    ensures |p| > |UploadDir| + 1 && p[..|UploadDir| + 1] == UploadDir + "/"
    ensures BaseName(p) == StoredName(now, originalName)
  {
    var n := StoredName(now, originalName);
    var p := UploadDir + "/" + n;
    assert TrimTrailingSlashes(p) == p by {
      assert p[|p| - 1] == n[|n| - 1];
      assert n[|n| - 1] in n;
    }
    AfterLastSlashOfPortion(UploadDir, n);
    p
  }

  /** The number of leading digits of a string. */
  function LeadingDigits(s: string): (k: nat)
    ensures k <= |s|
    ensures forall i :: 0 <= i < k ==> IsDigit(s[i])
    ensures k < |s| ==> !IsDigit(s[k])
  {
    if s == [] || !IsDigit(s[0]) then 0 else 1 + LeadingDigits(s[1..])
  }

  lemma {:induction false} LeadingDigitsOfDigitsThenOther(digits: string, rest: string)
    requires forall i :: 0 <= i < |digits| ==> IsDigit(digits[i])
    requires rest == [] || !IsDigit(rest[0])
    ensures LeadingDigits(digits + rest) == |digits|
  {
    if digits != [] {
      assert (digits + rest)[1..] == digits[1..] + rest;
      LeadingDigitsOfDigitsThenOther(digits[1..], rest);
    }
  }

  /** A stored name gives back the instant it was made at and the original's extension. */
  lemma StoredNameRecoversParts(now: nat, originalName: string)
    ensures var n := StoredName(now, originalName);
            var k := LeadingDigits(n);
            && ParseDecimal(n[..k]) == now
            && n[k..] == ExtName(originalName)
  {
    var d, e := Decimal(now), ExtName(originalName);
    LeadingDigitsOfDigitsThenOther(d, e);
    assert (d + e)[..|d|] == d;
    assert (d + e)[|d|..] == e;
    ParseDecimalOfDecimal(now);
  }

  /** Files stored at different instants get different names. */
  lemma StoredNamesDifferAcrossInstants(t1: nat, t2: nat, name1: string, name2: string)
    requires t1 != t2
    ensures StoredName(t1, name1) != StoredName(t2, name2)
  {
    StoredNameRecoversParts(t1, name1);
    StoredNameRecoversParts(t2, name2);
  }

  lemma {:induction false} AfterLastSlashOfPlainName(s: string)
    requires '/' !in s
    ensures AfterLastSlash(s) == s
  {
    if s != [] {
      assert '/' !in s[..|s| - 1];
      AfterLastSlashOfPlainName(s[..|s| - 1]);
    }
  }

  lemma {:induction false} LastDotBeforePlainExtension(stem: string, ext: string)
    requires '.' !in ext
    ensures LastDot(stem + "." + ext) == Some(|stem|)
  {
    if ext != [] {
      var s := stem + "." + ext;
      assert s[|s| - 1] == ext[|ext| - 1];
      assert s[..|s| - 1] == stem + "." + ext[..|ext| - 1];
      LastDotBeforePlainExtension(stem, ext[..|ext| - 1]);
    }
  }

  /** A plain file name `stem.ext` has the extension `.ext`. */
  lemma ExtNameOfPlainName(stem: string, ext: string)
    requires stem != [] && ext != []
    requires '/' !in stem && '/' !in ext && '.' !in ext
    ensures ExtName(stem + "." + ext) == "." + ext
  {
    var b := stem + "." + ext;
    assert '/' !in b by {
      assert forall i :: 0 <= i < |b| ==> b[i] in stem || b[i] == '.' || b[i] in ext;
    }
    assert TrimTrailingSlashes(b) == b by {
      assert b[|b| - 1] in b;
    }
    AfterLastSlashOfPlainName(b);
    LastDotBeforePlainExtension(stem, ext);
    assert b[|stem|..] == "." + ext;
  }

  /** Two files with the same extension stored in the same millisecond get the same name. */
  lemma StoredNamesCollideWithinInstant(now: nat, stem1: string, stem2: string, ext: string)
    requires stem1 != [] && stem2 != [] && ext != []
    requires '/' !in stem1 && '/' !in stem2 && '/' !in ext && '.' !in ext
    ensures StoredName(now, stem1 + "." + ext) == StoredName(now, stem2 + "." + ext)
  {
    ExtNameOfPlainName(stem1, ext);
    ExtNameOfPlainName(stem2, ext);
  }

  // ---------------------------------------------------------------------------------
  // What the handler receives

  /** The upload middleware's record of a stored file. */
  datatype Upload = Upload(originalName: string, path: string, size: nat)

  /**
   * The text fields of a multipart body as the request body object (a later part of
   * the same name would replace an earlier one; the form never sends two).
   */
  function ReceivedFields(parts: seq<RegistrationForm.Part>): (fields: map<string, string>)
    ensures forall k :: k in fields <==> exists i :: 0 <= i < |parts| && parts[i].TextPart? && parts[i].name == k
    ensures forall k :: k in fields ==> exists i :: 0 <= i < |parts| && parts[i] == RegistrationForm.TextPart(k, fields[k])
  {
    if parts == [] then map[]
    else
      var init := ReceivedFields(parts[..|parts| - 1]);
      match parts[|parts| - 1]
      case TextPart(name, value) => init[name := value]
      case FilePart(_, _) => init
  }

  /** The file part the middleware takes: the first one named `image`. */
  function ReceivedFile(parts: seq<RegistrationForm.Part>): (r: Option<RegistrationForm.File>)
    ensures r.None? <==> forall i :: 0 <= i < |parts| ==> !(parts[i].FilePart? && parts[i].name == UploadField)
    ensures r.Some? ==> exists i :: 0 <= i < |parts| && parts[i] == RegistrationForm.FilePart(UploadField, r.value)
  {
    if parts == [] then None
    else if parts[0].FilePart? && parts[0].name == UploadField then Some(parts[0].file)
    else ReceivedFile(parts[1..])
  }

  // ---------------------------------------------------------------------------------
  // The record written to the database

  /** `createdAt`: the insertion instant by default, or whatever the request body supplied. */
  datatype CreatedAt = InsertedAt(instant: int) | Supplied(raw: string)

  /** A document of the registration collection: the schema's paths, nothing else. */
  datatype Record = Record(fullName: Option<string>, email: Option<string>, phone: Option<string>,
                           college: Option<string>, experience: Option<string>,
                           paymentScreenshot: Option<string>, createdAt: CreatedAt)

  function Lookup(doc: map<string, string>, key: string): Option<string> {
    if key in doc then Some(doc[key]) else None
  }

  /** `{...req.body, paymentScreenshot: secureUrl}`. */
  function Document(body: map<string, string>, secureUrl: string): (doc: map<string, string>)
    ensures doc.Keys == body.Keys + {"paymentScreenshot"}
    ensures doc["paymentScreenshot"] == secureUrl
    ensures forall k :: k in body && k != "paymentScreenshot" ==> doc[k] == body[k]
  {
    body["paymentScreenshot" := secureUrl]
  }

  /** What the schema keeps of a document inserted at `now`: its own paths, `createdAt` defaulted. */
  function ToRecord(doc: map<string, string>, now: int): (r: Record)
    ensures r.createdAt.InsertedAt? <==> "createdAt" !in doc
    ensures r.createdAt.InsertedAt? ==> r.createdAt.instant == now
    ensures r.paymentScreenshot.Some? <==> "paymentScreenshot" in doc
  {
    Record(Lookup(doc, "fullName"), Lookup(doc, "email"), Lookup(doc, "phone"),
           Lookup(doc, "college"), Lookup(doc, "experience"), Lookup(doc, "paymentScreenshot"),
           if "createdAt" in doc then Supplied(doc["createdAt"]) else InsertedAt(now))
  }

  /** The record the handler writes for a request body and an uploaded asset's URL. */
  function RecordFor(body: map<string, string>, secureUrl: string, now: int): (r: Record)
    ensures r.paymentScreenshot == Some(secureUrl)
    ensures r.fullName == Lookup(body, "fullName") && r.email == Lookup(body, "email")
    ensures r.phone == Lookup(body, "phone") && r.college == Lookup(body, "college")
    ensures r.experience == Lookup(body, "experience")
    ensures r.createdAt == if "createdAt" in body then Supplied(body["createdAt"]) else InsertedAt(now)
  {
    ToRecord(Document(body, secureUrl), now)
  }

  /** The body the form sends arrives as its five fields and its screenshot. */
  lemma ReceivedRegistrationBody(parts: seq<RegistrationForm.Part>, file: RegistrationForm.File,
                                 d: RegistrationForm.FormData)
    requires RegistrationForm.IsRegistrationBody(parts, file, d)
    ensures ReceivedFile(parts) == Some(file)
    ensures ReceivedFields(parts) == map["fullName" := d.fullName, "email" := d.email, "phone" := d.phone,
                                         "college" := d.college, "experience" := d.experience]
  {
    var p := parts;
    assert p[0] == RegistrationForm.FilePart(UploadField, file);
    assert p[1] == RegistrationForm.TextPart("fullName", d.fullName);
    assert p[2] == RegistrationForm.TextPart("email", d.email);
    assert p[3] == RegistrationForm.TextPart("phone", d.phone);
    assert p[4] == RegistrationForm.TextPart("college", d.college);
    assert p[5] == RegistrationForm.TextPart("experience", d.experience);
    assert p[..1][..0] == [];
    assert ReceivedFields(p[..1]) == map[];
    assert p[..2][..1] == p[..1];
    assert p[..3][..2] == p[..2];
    assert p[..4][..3] == p[..3];
    assert p[..5][..4] == p[..4];
    assert p[..5] == p[..|p| - 1];
    assert ReceivedFields(p[..2]) == map["fullName" := d.fullName];
    assert ReceivedFields(p[..3]) == map["fullName" := d.fullName, "email" := d.email];
    assert ReceivedFields(p[..4]) == map["fullName" := d.fullName, "email" := d.email, "phone" := d.phone];
    assert ReceivedFields(p[..5]) == map["fullName" := d.fullName, "email" := d.email, "phone" := d.phone,
                                         "college" := d.college];
  }

  /** End to end: the record written for a form's submission holds its fields and the URL. */
  lemma SubmittedFormIsRecorded(parts: seq<RegistrationForm.Part>, file: RegistrationForm.File,
                                d: RegistrationForm.FormData, secureUrl: string, now: int)
    requires RegistrationForm.IsRegistrationBody(parts, file, d)
    ensures RecordFor(ReceivedFields(parts), secureUrl, now)
            == Record(Some(d.fullName), Some(d.email), Some(d.phone), Some(d.college), Some(d.experience),
                      Some(secureUrl), InsertedAt(now))
  {
    ReceivedRegistrationBody(parts, file, d);
    RecordForFormFields(d, secureUrl, now);
  }

  lemma RecordForFormFields(d: RegistrationForm.FormData, secureUrl: string, now: int)
    ensures RecordFor(map["fullName" := d.fullName, "email" := d.email, "phone" := d.phone,
                          "college" := d.college, "experience" := d.experience], secureUrl, now)
            == Record(Some(d.fullName), Some(d.email), Some(d.phone), Some(d.college), Some(d.experience),
                      Some(secureUrl), InsertedAt(now))
  {
  }

  // ---------------------------------------------------------------------------------
  // The `/register` handler

  /** What the media store's upload call did. */
  datatype UploadResult = Uploaded(secureUrl: string) | UploadFailed

  /** What the database insert did. */
  datatype InsertResult = Inserted | InsertFailed

  /** The JSON reply `{success, message?}` with its HTTP status. */
  datatype Reply = Reply(status: int, success: bool, message: Option<string>)

  /** An effect on the outside world, in the order the handler performs them. */
  datatype Effect = MediaUpload(path: string) | Unlink(path: string) | DbInsert(record: Record)

  /** What one request does, by which file it carries and how the two external calls end. */
  datatype Outcome = Outcome(reply: Reply, fileDeleted: bool, assetCreated: bool, recordWritten: bool)

  /** The handler's control flow: an early 400 without a file, otherwise upload, unlink, insert. */
  function HandlerOutcome(hasFile: bool, upload: UploadResult, insert: InsertResult): (o: Outcome)
    ensures o.reply.status == 200 || o.reply.status == 400 || o.reply.status == 500
    ensures o.reply.success <==> o.reply.status == 200
    ensures o.reply.status == 400 <==> !hasFile
    ensures o.reply.message.Some? <==> o.reply.status == 400
    ensures o.recordWritten ==> o.fileDeleted && o.assetCreated
  {
    if !hasFile then Outcome(Reply(400, false, Some("Image required")), false, false, false)
    else if upload.UploadFailed? then Outcome(Reply(500, false, None), false, false, false)
    else if insert.InsertFailed? then Outcome(Reply(500, false, None), true, true, false)
    else Outcome(Reply(200, true, None), true, true, true)
  }

  lemma MissingFileIsRejected(upload: UploadResult, insert: InsertResult)
    ensures HandlerOutcome(false, upload, insert)
            == Outcome(Reply(400, false, Some("Image required")), false, false, false)
  {}

  lemma UploadFailureKeepsLocalFile(insert: InsertResult)
    ensures var o := HandlerOutcome(true, UploadFailed, insert);
            o.reply == Reply(500, false, None) && !o.fileDeleted && !o.assetCreated && !o.recordWritten
  {}

  lemma InsertFailureOrphansAsset(secureUrl: string)
    ensures var o := HandlerOutcome(true, Uploaded(secureUrl), InsertFailed);
            o.reply == Reply(500, false, None) && o.fileDeleted && o.assetCreated && !o.recordWritten
  {}

  /** A record is written exactly when the reply reports success, which is only the full pipeline. */
  lemma SuccessIffRecordWritten(hasFile: bool, upload: UploadResult, insert: InsertResult)
    ensures var o := HandlerOutcome(hasFile, upload, insert);
            && (o.reply.success <==> o.recordWritten)
            && (o.recordWritten <==> hasFile && upload.Uploaded? && insert.Inserted?)
            && (o.reply.success ==> o.reply.status == 200)
            && (o.fileDeleted <==> o.assetCreated)
  {}

  class Server {
    var localFiles: set<string>
    var assets: seq<string>
    var records: seq<Record>
    ghost var effects: seq<Effect>

    constructor ()
      ensures localFiles == {} && assets == [] && records == [] && effects == []
    {
      localFiles, assets, records := {}, [], [];
      effects := [];
    }

    /**
     * The upload middleware's disk storage: writes the `image` part, named after the
     * instant it is stored at. Files over the cap never reach the handler.
     */
    method StoreUpload(originalName: string, size: nat, now: nat) returns (u: Upload)
      requires size <= MaxUploadSize
      modifies this`localFiles
      ensures u == Upload(originalName, StoredPath(now, originalName), size)
      ensures localFiles == old(localFiles) + {u.path}
    {
      u := Upload(originalName, StoredPath(now, originalName), size);
      localFiles := localFiles + {u.path};
    }

    /**
     * The `/register` handler for a request carrying `file` (if the middleware stored one)
     * and the text fields `body`; `upload` and `insert` are how the two external calls end,
     * `now` the instant of the insert.
     */
    method Register(file: Option<Upload>, body: map<string, string>,
                    upload: UploadResult, insert: InsertResult, now: int) returns (reply: Reply)
      requires file.Some? ==> file.value.path in localFiles
      modifies this
      ensures var o := HandlerOutcome(file.Some?, upload, insert);
              && reply == o.reply
              && localFiles == (if o.fileDeleted then old(localFiles) - {file.value.path} else old(localFiles))
              && assets == old(assets) + (if o.assetCreated then [upload.secureUrl] else [])
              && records == old(records) + (if o.recordWritten then [RecordFor(body, upload.secureUrl, now)] else [])
      ensures file.None? ==> effects == old(effects)
      ensures file.Some? && upload.UploadFailed? ==> effects == old(effects) + [MediaUpload(file.value.path)]
      ensures file.Some? && upload.Uploaded? ==>
                effects == old(effects) + [MediaUpload(file.value.path), Unlink(file.value.path),
                                           DbInsert(RecordFor(body, upload.secureUrl, now))]
    {
      if file.None? {
        return Reply(400, false, Some("Image required"));
      }
      var path := file.value.path;
      effects := effects + [MediaUpload(path)];
      match upload {
        case UploadFailed =>
          return Reply(500, false, None);
        case Uploaded(url) =>
          assets := assets + [url];
      }
      localFiles := localFiles - {path};
      effects := effects + [Unlink(path)];
      var record := RecordFor(body, upload.secureUrl, now);
      effects := effects + [DbInsert(record)];
      if insert.InsertFailed? {
        return Reply(500, false, None);
      }
      records := records + [record];
      reply := Reply(200, true, None);
    }
  }
}
