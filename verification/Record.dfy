/** Content hashes and the durable review record. SHA-256 is a parameter. */
module Record {
  import opened Base
  import opened Text
  import opened Json

  type Digest = string -> string

  function ContentHash(v: Json, sha256: Digest): string {
    sha256(CanonicalJson(v))
  }

  /** str(value), except that a list or dictionary, whose text starts with a bracket, gives None. */
  function StrOf(v: Json): Option<string> {
    match v
    case Str(s) => Some(s)
    case Int(n) => Some(IntText(n))
    case Bool(b) => Some(if b then "True" else "False")
    case Null => Some("None")
    case _ => None
  }

  predicate IsHex(s: string, length: nat) {
    |s| == length && forall i :: 0 <= i < |s| ==> '0' <= s[i] <= '9' || 'a' <= s[i] <= 'f'
  }

  /** Whether str(d.get(key, "")) is lower-case hexadecimal of that length; gives the text. */
  function HexField(ms: seq<Member>, key: string, length: nat): Option<string> {
    match Get(ms, key)
    case None => if length == 0 then Some("") else None
    case Some(v) => match StrOf(v) case Some(s) => (if IsHex(s, length) then Some(s) else None) case None => None
  }

  datatype Failure = NotADictionary | InvalidCommit

  /** The path a review belongs at and its content hash. */
  function ReviewRecordPath(review: Json, sha256: Digest): Result<(string, string), Failure> {
    if !review.Obj? then Err(NotADictionary)
    else
      match HexField(review.members, "reviewed_commit_sha", 40)
      case None => Err(InvalidCommit)
      case Some(sha) =>
        var digest := ContentHash(review, sha256);
        Ok(("docs/evidence/automation/reviews/" + sha + "/" + digest + ".json", digest))
  }

  datatype Filed = Filed(accepted: bool, reasons: seq<string>, written: Option<string>)

  /** The review-record command: checks the given path and writes the canonical form once accepted. */
  function ReviewRecordCommand(text: string, path: string, existsOnDefault: Option<bool>,
                               sha256: Digest): Option<Result<Filed, Failure>> {
    match Loads(UniversalNewlines(text))
    case None => None
    case Some(record) =>
      match ReviewRecordPath(record, sha256)
      case Err(e) => Some(Err(e))
      case Ok((expected, _)) =>
        var reasons :=
          (if path != "" && path != expected then ["review-record-path-or-hash"] else [])
          + (if existsOnDefault == Some(false) then ["review-record-not-durable"] else []);
        Some(Ok(Filed(reasons == [], reasons, if reasons == [] then Some(CanonicalJson(record)) else None)))
  }

  lemma {:induction false} SamePathWhenCanonical(review: Json, sha256: Digest)
    requires WellFormed(review)
    ensures ContentHash(Canonical(review), sha256) == ContentHash(review, sha256)
    ensures ReviewRecordPath(Canonical(review), sha256) == ReviewRecordPath(review, sha256)
  {
    CanonicalKeeps(review);
    if review.Obj? {
      GetCanonical(review.members, "reviewed_commit_sha");
    }
  }

  /** A written review record reads back as the same record: same content, hash and path, and filing it
      again under its own path is accepted and writes the same text. */
  lemma WrittenRecordReadsBack(text: string, path: string, existsOnDefault: Option<bool>,
                               sha256: Digest)
    requires ReviewRecordCommand(text, path, existsOnDefault, sha256).Some?
    requires ReviewRecordCommand(text, path, existsOnDefault, sha256).value.Ok?
    requires ReviewRecordCommand(text, path, existsOnDefault, sha256).value.value.accepted
    ensures var written := ReviewRecordCommand(text, path, existsOnDefault, sha256).value.value.written;
      && written.Some?
      && Loads(UniversalNewlines(text)).Some? && Loads(UniversalNewlines(written.value)).Some?
      && var record := Loads(UniversalNewlines(text)).value;
         var copy := Loads(UniversalNewlines(written.value)).value;
         && Same(record, copy)
         && ContentHash(copy, sha256) == ContentHash(record, sha256)
         && ReviewRecordPath(copy, sha256) == ReviewRecordPath(record, sha256)
         && ReviewRecordCommand(written.value, path, existsOnDefault, sha256)
              == ReviewRecordCommand(text, path, existsOnDefault, sha256)
  {
    hide Loads, CanonicalJson, Canonical, ReviewRecordPath;
    var record := Loads(UniversalNewlines(text)).value;
    LoadsWellFormed(UniversalNewlines(text));
    CanonicalReadsBack(record);
    CanonicalHasNoControls(record);
    NewlinesUntouched(CanonicalJson(record));
    SamePathWhenCanonical(record, sha256);
    CanonicalKeeps(record);
    CanonicalDecidesSame(record, Canonical(record));
    TwiceCanonical(record);
  }

  lemma CanonicalHasNoControls(v: Json)
    ensures NoControls(CanonicalJson(v))
  {
    PrintHasNoControls(Canonical(v));
  }

  lemma TwiceCanonical(v: Json)
    requires WellFormed(v)
    ensures CanonicalJson(Canonical(v)) == CanonicalJson(v)
  {
    CanonicalKeeps(v);
  }
}
