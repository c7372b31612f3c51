/** What a page of the public search holds, told from the request. */
module SearchLaws {
  import opened Base
  import opened Text
  import opened Domain
  import opened Search
  import CommandLaws

  /** The needle stands somewhere in the text, up to case. */
  ghost predicate Shows(text: string, needle: string, fold: char -> char) {
    exists i: nat :: i + |needle| <= |text| && FoldsTo(text, i, needle, fold)
  }

  ghost predicate FoldsTo(text: string, i: nat, needle: string, fold: char -> char)
    requires i + |needle| <= |text|
  {
    forall j :: 0 <= j < |needle| ==> fold(text[i + j]) == fold(needle[j])
  }

  /** The trimmed text is empty, or shows in the title, the body or a tag. */
  ghost predicate TextWanted(s: Snapshot, given: string, fold: char -> char) {
    exists t: string :: CommandLaws.Trimmed(given, t)
      && (t == "" || Shows(s.title, t, fold) || Shows(s.body, t, fold)
          || exists i :: 0 <= i < |s.tags| && Shows(s.tags[i], t, fold))
  }

  /** The trimmed tag is empty, or one of the tags up to case. */
  ghost predicate TagWanted(s: Snapshot, given: string, fold: char -> char) {
    exists t: string :: CommandLaws.Trimmed(given, t)
      && (t == "" || exists i :: 0 <= i < |s.tags| && |s.tags[i]| == |t| && FoldsTo(s.tags[i], 0, t, fold))
  }

  /** A question the request asks for. */
  ghost predicate Wanted(s: Snapshot, q: Query, fold: char -> char) {
    && s.tenantId == q.tenantId && s.status == Published
    && (q.text.Some? ==> TextWanted(s, q.text.value, fold)) && (q.tag.Some? ==> TagWanted(s, q.tag.value, fold))
  }

  /** Published later, or at the same time under a smaller id. */
  ghost predicate Newer(a: Snapshot, b: Snapshot) {
    a.publishedAt.Some? && b.publishedAt.Some? ==>
      a.publishedAt.value > b.publishedAt.value || (a.publishedAt == b.publishedAt && a.id < b.id)
  }

  /** The page lists wanted questions, each once and newest first; what it leaves out is older than all of it, and
      then it is as long as asked for: between one and fifty. */
  ghost predicate PageOf(page: seq<Snapshot>, rows: seq<Snapshot>, q: Query, fold: char -> char) {
    var most := if q.limit < 1 then 1 else if q.limit > 50 then 50 else q.limit;
    && |page| <= most && Distinct(page)
    && (forall i :: 0 <= i < |page| ==> page[i] in rows && Wanted(page[i], q, fold))
    && (forall i, j :: 0 <= i < j < |page| ==> Newer(page[i], page[j]))
    && forall s :: s in rows && Wanted(s, q, fold) && s !in page ==>
         |page| == most && forall i :: 0 <= i < |page| ==> Newer(page[i], s)
  }

  lemma ContainsIs(text: string, needle: string, fold: char -> char)
    ensures Contains(text, needle, fold) <==> Shows(text, needle, fold)
  {
    hide OccursAt, FoldsTo;
    forall i: nat | i + |needle| <= |text| ensures OccursAt(text, needle, i, fold) <==> FoldsTo(text, i, needle, fold) {
      OccursIs(text, needle, i, fold);
    }
    forall i: nat | OccursAt(text, needle, i, fold)
      ensures i + |needle| <= |text|
    {
      OccursFits(text, needle, i, fold);
    }
  }

  lemma OccursFits(text: string, needle: string, i: nat, fold: char -> char)
    requires OccursAt(text, needle, i, fold)
    ensures i + |needle| <= |text|
  {
  }

  lemma OccursIs(text: string, needle: string, i: nat, fold: char -> char)
    requires i + |needle| <= |text|
    ensures OccursAt(text, needle, i, fold) <==> FoldsTo(text, i, needle, fold)
  {
    var part := text[i..i + |needle|];
    assert forall j :: 0 <= j < |needle| ==> part[j] == text[i + j];
  }

  lemma TextWantedIs(s: Snapshot, given: string, fold: char -> char)
    ensures TextWanted(s, given, fold) <==>
      var t := Trim(given);
      t == "" || Contains(s.title, t, fold) || Contains(s.body, t, fold)
      || exists i :: 0 <= i < |s.tags| && Contains(s.tags[i], t, fold)
  {
    hide CommandLaws.Trimmed, Contains, Shows, Trim;
    OnlyTrim(given);
    forall text: string ensures Contains(text, Trim(given), fold) <==> Shows(text, Trim(given), fold) {
      ContainsIs(text, Trim(given), fold);
    }
    var t := Trim(given);
    assert CommandLaws.Trimmed(given, t);
    forall i | 0 <= i < |s.tags| ensures Contains(s.tags[i], t, fold) <==> Shows(s.tags[i], t, fold) {}
  }

  lemma OnlyTrim(given: string)
    ensures forall t :: CommandLaws.Trimmed(given, t) <==> t == Trim(given)
  {
    hide CommandLaws.Trimmed, Trim;
    CommandLaws.TrimIsTrimmed(given);
    forall t | CommandLaws.Trimmed(given, t) ensures t == Trim(given) {
      CommandLaws.TrimmedOnce(given, t, Trim(given));
    }
  }

  lemma TagWantedIs(s: Snapshot, given: string, fold: char -> char)
    ensures TagWanted(s, given, fold) <==>
      Trim(given) == "" || exists i :: 0 <= i < |s.tags| && SameFolded(s.tags[i], Trim(given), fold)
  {
    hide CommandLaws.Trimmed, Trim;
    OnlyTrim(given);
  }

  lemma TrimmedBlank(given: string)
    ensures IsBlank(Trim(given)) <==> Trim(given) == ""
  {
    TrimBlank(given);
  }

  /** The filter takes exactly the wanted questions. */
  lemma SelectsExactly(s: Snapshot, q: Query, fold: char -> char)
    ensures MemorySelects(s, q, fold) <==> Wanted(s, q, fold)
    ensures SqlSelects(s, q, fold) <==> Wanted(s, q, fold)
  {
    hide SqlSelects, TextWanted, TagWanted, Contains, SameFolded, Trim, IsBlank;
    FiltersAgree(s, q, fold);
    if q.text.Some? {
      TextWantedIs(s, q.text.value, fold);
      TrimmedBlank(q.text.value);
    }
    if q.tag.Some? {
      TagWantedIs(s, q.tag.value, fold);
      TrimmedBlank(q.tag.value);
    }
  }

  /** The page of both searches is that page. */
  lemma PageExactly(page: seq<Snapshot>, rows: seq<Snapshot>, q: Query, fold: char -> char)
    requires || IsPage(page, (set s | s in rows && MemorySelects(s, q, fold)), PageSize(q.limit))
             || IsPage(page, (set s | s in rows && SqlSelects(s, q, fold)), PageSize(q.limit))
    ensures PageOf(page, rows, q, fold)
  {
    hide MemorySelects, SqlSelects, Wanted;
    forall s ensures (MemorySelects(s, q, fold) <==> Wanted(s, q, fold))
      && (SqlSelects(s, q, fold) <==> Wanted(s, q, fold))
    {
      SelectsExactly(s, q, fold);
    }
    assert forall a, b :: Before(a, b) ==> Newer(a, b);
    assert forall i, j :: 0 <= i < j < |page| ==> Before(page[i], page[j]);
  }
}
