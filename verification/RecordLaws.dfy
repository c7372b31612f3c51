/** Where a review record belongs and when it is filed, spelled out. */
module RecordLaws {
  import opened Base
  import opened Text
  import opened Json
  import opened Record
  import GateLaws

  /** The text names the reviewed commit: forty lower-case hexadecimal digits, as str() gives the field. */
  ghost predicate Commit(review: Json, sha: string) {
    && review.Obj? && GateLaws.Hexadecimal(sha, 40)
    && (|| Get(review.members, "reviewed_commit_sha") == Some(Str(sha))
        || exists n: int :: Get(review.members, "reviewed_commit_sha") == Some(Int(n)) && IntText(n) == sha)
  }

  ghost predicate PlaceOf(review: Json, sha256: Digest, path: string, digest: string) {
    exists sha: string ::
      && Commit(review, sha) && digest == sha256(CanonicalJson(review))
      && path == "docs/evidence/automation/reviews/" + sha + "/" + digest + ".json"
  }

  lemma FieldIsCommit(review: Json, sha: string)
    requires review.Obj?
    ensures HexField(review.members, "reviewed_commit_sha", 40) == Some(sha) <==> Commit(review, sha)
  {
    hide Get, IsHex, GateLaws.Hexadecimal, IntText;
    GateLaws.HexadecimalIsHex(sha, 40);
    match Get(review.members, "reviewed_commit_sha")
    case Some(Int(n)) => GateLaws.HexadecimalIsHex(IntText(n), 40);
    case Some(Bool(b)) => GateLaws.ShortIsNoHex(if b then "True" else "False", 40);
    case Some(Null) => GateLaws.ShortIsNoHex("None", 40);
    case _ =>
  }

  /** The path of a review is made of its commit and its content hash; without a commit there is none. */
  lemma PathExactly(review: Json, sha256: Digest, path: string, digest: string)
    ensures ReviewRecordPath(review, sha256) == Ok((path, digest)) <==> PlaceOf(review, sha256, path, digest)
    ensures ReviewRecordPath(review, sha256) == Err(NotADictionary) <==> !review.Obj?
    ensures ReviewRecordPath(review, sha256) == Err(InvalidCommit)
      <==> review.Obj? && forall sha :: !Commit(review, sha)
  {
    hide HexField, Commit, CanonicalJson;
    if review.Obj? {
      forall sha ensures HexField(review.members, "reviewed_commit_sha", 40) == Some(sha) <==> Commit(review, sha) {
        FieldIsCommit(review, sha);
      }
    } else {
      NoCommit(review);
    }
  }

  lemma NoCommit(review: Json)
    requires !review.Obj?
    ensures forall sha :: !Commit(review, sha)
  {
  }

  // ------------------------------------------------------------------ line ends

  /** The text with every line end, be it CR LF, CR or LF, as one LF. */
  ghost predicate LineEndsTold(s: string, t: string)
    decreases |s|
  {
    if '\r' !in s then t == s
    else exists i: nat, u: string ::
      && i < |s| && s[i] == '\r' && '\r' !in s[..i] && t == s[..i] + "\n" + u
      && LineEndsTold(if i + 1 < |s| && s[i + 1] == '\n' then s[i + 2..] else s[i + 1..], u)
  }

  lemma {:induction false} NothingTold(s: string)
    requires '\r' !in s
    ensures UniversalNewlines(s) == s
  {
    if s != "" {
      assert forall c :: c in s[1..] ==> c in s;
      NothingTold(s[1..]);
      assert s == [s[0]] + s[1..];
    }
  }

  lemma {:induction false} FirstTold(s: string, i: nat)
    requires i < |s| && s[i] == '\r' && '\r' !in s[..i]
    ensures UniversalNewlines(s) == s[..i] + "\n"
      + UniversalNewlines(if i + 1 < |s| && s[i + 1] == '\n' then s[i + 2..] else s[i + 1..])
    decreases i
  {
    if i == 0 {
      assert s[..0] == "";
    } else {
      assert s[0] in s[..i];
      var rest := s[1..];
      assert rest[..i - 1] == s[..i][1..];
      FirstTold(rest, i - 1);
      assert s[..i] == [s[0]] + rest[..i - 1];
      assert rest[i..] == s[i + 1..];
      if i + 1 < |s| { assert rest[i + 1..] == s[i + 2..]; }
    }
  }

  lemma FirstReturn(s: string) returns (i: nat)
    requires '\r' in s
    ensures i < |s| && s[i] == '\r' && '\r' !in s[..i]
  {
    i := 0;
    while s[i] != '\r'
      invariant i < |s| && '\r' !in s[..i] && '\r' in s[i..]
      decreases |s| - i
    {
      assert s[i..] == [s[i]] + s[i + 1..] && s[..i + 1] == s[..i] + [s[i]];
      i := i + 1;
    }
  }

  /** Reading in text mode does that. */
  lemma {:induction false} NewlinesExactly(s: string)
    ensures LineEndsTold(s, UniversalNewlines(s))
    decreases |s|
  {
    hide UniversalNewlines;
    if '\r' in s {
      var i := FirstReturn(s);
      var rest := if i + 1 < |s| && s[i + 1] == '\n' then s[i + 2..] else s[i + 1..];
      FirstTold(s, i);
      NewlinesExactly(rest);
      assert LineEndsTold(rest, UniversalNewlines(rest));
    } else {
      NothingTold(s);
    }
  }

  // ------------------------------------------------------------------ filing

  /** Filing a record: refused for another path than its own or for a review that is not durable, and otherwise the
      canonical text is written. */
  lemma FiledExactly(text: string, path: string, existsOnDefault: Option<bool>, sha256: Digest, own: string,
                     digest: string, record: Json)
    requires Loads(UniversalNewlines(text)) == Some(record) && PlaceOf(record, sha256, own, digest)
    ensures var r := ReviewRecordCommand(text, path, existsOnDefault, sha256);
      && r.Some? && r.value.Ok?
      && var filed := r.value.value; var misplaced := path != "" && path != own;
         && ("review-record-path-or-hash" in filed.reasons <==> misplaced)
         && ("review-record-not-durable" in filed.reasons <==> existsOnDefault == Some(false))
         && (filed.accepted <==> !misplaced && existsOnDefault != Some(false))
         && filed.written == (if filed.accepted then Some(CanonicalJson(record)) else None)
  {
    hide Loads, UniversalNewlines, CanonicalJson, ReviewRecordPath, PlaceOf;
    PathExactly(record, sha256, own, digest);
    assert "review-record-path-or-hash"[14] == 'p' && "review-record-not-durable"[14] == 'n';
  }

  /** Nothing is filed from a text that is no JSON, or whose record has no place. */
  lemma NotFiledExactly(text: string, path: string, existsOnDefault: Option<bool>, sha256: Digest)
    ensures ReviewRecordCommand(text, path, existsOnDefault, sha256).None? <==> Loads(UniversalNewlines(text)).None?
    ensures Loads(UniversalNewlines(text)).Some? ==>
      var record := Loads(UniversalNewlines(text)).value;
      ReviewRecordCommand(text, path, existsOnDefault, sha256).value.Err?
      <==> forall own, digest :: !PlaceOf(record, sha256, own, digest)
  {
    hide Loads, UniversalNewlines, CanonicalJson, PlaceOf, HexField;
    if Loads(UniversalNewlines(text)).Some? {
      var record := Loads(UniversalNewlines(text)).value;
      forall own, digest
        ensures ReviewRecordPath(record, sha256) == Ok((own, digest)) <==> PlaceOf(record, sha256, own, digest)
      {
        PathExactly(record, sha256, own, digest);
      }
      if ReviewRecordPath(record, sha256).Ok? {
        var (own, digest) := ReviewRecordPath(record, sha256).value;
        assert PlaceOf(record, sha256, own, digest);
      }
    }
  }
}
