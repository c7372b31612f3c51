/** JSON values, canonical_json and json.loads. Numbers are integers and text has no lone surrogates. */
module Json {
  import opened Base
  import opened Text
  import Order

  datatype Json =
    | Null
    | Bool(truth: bool)
    | Int(number: int)
    | Str(text: string)
    | Arr(items: seq<Json>)
    | Obj(members: seq<Member>)

  datatype Member = Member(key: string, value: Json)

  function KeyOf(m: Member): string {
    m.key
  }

  predicate DistinctKeys(ms: seq<Member>) {
    DistinctBy(ms, KeyOf)
  }

  /** Dictionaries have one value per key, at every depth. */
  predicate WellFormed(v: Json)
    decreases v
  {
    match v
    case Arr(items) => forall i :: 0 <= i < |items| ==> WellFormed(items[i])
    case Obj(ms) => DistinctKeys(ms) && forall i :: 0 <= i < |ms| ==> WellFormed(ms[i].value)
    case _ => true
  }

  predicate KeysIn(ms: seq<Member>, ns: seq<Member>) {
    forall i :: 0 <= i < |ms| ==> exists j :: 0 <= j < |ns| && ns[j].key == ms[i].key
  }

  /** Structural equality: dictionaries have the same keys and the same value under each, in any order. */
  predicate Same(v: Json, w: Json)
    decreases v
  {
    match v
    case Arr(xs) => w.Arr? && |xs| == |w.items| && forall i :: 0 <= i < |xs| ==> Same(xs[i], w.items[i])
    case Obj(ms) =>
      && w.Obj? && KeysIn(ms, w.members) && KeysIn(w.members, ms)
      && forall i, j :: 0 <= i < |ms| && 0 <= j < |w.members| && ms[i].key == w.members[j].key ==>
           Same(ms[i].value, w.members[j].value)
    case _ => v == w
  }

  // ---------------------------------------------------------------- printing

  function CanonicalItems(items: seq<Json>): (r: seq<Json>)
    ensures |r| == |items| && forall i :: 0 <= i < |items| ==> r[i] == Canonical(items[i])
    decreases items
  {
    if items == [] then [] else [Canonical(items[0])] + CanonicalItems(items[1..])
  }

  function CanonicalMembers(ms: seq<Member>): (r: seq<Member>)
    ensures |r| == |ms| && forall i :: 0 <= i < |ms| ==> r[i] == Member(ms[i].key, Canonical(ms[i].value))
    decreases ms
  {
    if ms == [] then [] else [Member(ms[0].key, Canonical(ms[0].value))] + CanonicalMembers(ms[1..])
  }

  /** The value with the members of every dictionary in key order. */
  function Canonical(v: Json): Json
    decreases v
  {
    match v
    case Arr(items) => Arr(CanonicalItems(items))
    case Obj(ms) => Obj(Order.Sort(CanonicalMembers(ms), KeyOf))
    case _ => v
  }

  function EscapeChar(c: char): (r: string)
    ensures r != "" && r[0] != '"'
  {
    if c == '"' then "\\\"" else if c == '\\' then "\\\\"
    else if c == '\n' then "\\n" else if c == '\r' then "\\r" else if c == '\t' then "\\t"
    else if c as int == 8 then "\\b" else if c as int == 12 then "\\f"
    else if c as int < 32 then "\\u00" + [HexChar(c as int / 16), HexChar(c as int % 16)]
    else [c]
  }

  function EscapeText(s: string): string {
    if s == "" then "" else EscapeChar(s[0]) + EscapeText(s[1..])
  }

  function Quoted(s: string): string {
    "\"" + EscapeText(s) + "\""
  }

  function Print(v: Json): string
    decreases v
  {
    match v
    case Null => "null"
    case Bool(b) => if b then "true" else "false"
    case Int(n) => IntText(n)
    case Str(s) => Quoted(s)
    case Arr(items) => if items == [] then "[]" else "[" + Print(items[0]) + PrintItems(items[1..])
    case Obj(ms) => if ms == [] then "{}" else "{" + PrintMember(ms[0]) + PrintMembers(ms[1..])
  }

  function PrintItems(items: seq<Json>): string
    decreases items
  {
    if items == [] then "]" else "," + Print(items[0]) + PrintItems(items[1..])
  }

  function PrintMember(m: Member): string
    decreases m
  {
    Quoted(m.key) + ":" + Print(m.value)
  }

  function PrintMembers(ms: seq<Member>): string
    decreases ms
  {
    if ms == [] then "}" else "," + PrintMember(ms[0]) + PrintMembers(ms[1..])
  }

  /** json.dumps with sorted keys, no spaces and no ASCII escaping. */
  function CanonicalJson(v: Json): string {
    Print(Canonical(v))
  }

  // ----------------------------------------------------------------- reading

  datatype Parsed<T> = Read(value: T, rest: string) | Bad

  predicate IsJsonSpace(c: char) {
    c == ' ' || c == '\t' || c == '\n' || c == '\r'
  }

  function SkipSpace(s: string): (r: string)
    ensures |r| <= |s|
  {
    if s != "" && IsJsonSpace(s[0]) then SkipSpace(s[1..]) else s
  }

  function HexDigit(c: char): (d: Option<nat>)
    ensures d.Some? ==> d.value < 16
  {
    if '0' <= c <= '9' then Some(c as int - 48)
    else if 'a' <= c <= 'f' then Some(c as int - 87)
    else if 'A' <= c <= 'F' then Some(c as int - 55)
    else None
  }

  /** Four hexadecimal digits. */
  function HexFour(s: string): (d: Option<nat>)
    ensures d.Some? ==> |s| >= 4 && d.value < 0x10000
  {
    if |s| < 4 then None
    else
      match (HexDigit(s[0]), HexDigit(s[1]), HexDigit(s[2]), HexDigit(s[3]))
      case (Some(a), Some(b), Some(c), Some(d)) => Some(a * 4096 + b * 256 + c * 16 + d)
      case _ => None
  }

  /** The character after "\u", joining surrogate pairs. */
  function UnicodeEscape(s: string): (p: Parsed<char>)
    ensures p.Read? ==> |p.rest| < |s|
  {
    match HexFour(s)
    case None => Bad
    case Some(n) =>
      if n < 0xD800 || 0xE000 <= n then Read(n as char, s[4..])
      else if n < 0xDC00 && |s| >= 6 && s[4] == '\\' && s[5] == 'u' then
        match HexFour(s[6..])
        case Some(low) =>
          if 0xDC00 <= low < 0xE000 then Read((0x10000 + (n - 0xD800) * 1024 + (low - 0xDC00)) as char, s[10..])
          else Bad
        case None => Bad
      else Bad
  }

  function Escape(s: string): (p: Parsed<char>)
    ensures p.Read? ==> |p.rest| < |s|
  {
    if s == "" then Bad
    else if s[0] == '"' || s[0] == '\\' || s[0] == '/' then Read(s[0], s[1..])
    else if s[0] == 'n' then Read('\n', s[1..])
    else if s[0] == 'r' then Read('\r', s[1..])
    else if s[0] == 't' then Read('\t', s[1..])
    else if s[0] == 'b' then Read(8 as char, s[1..])
    else if s[0] == 'f' then Read(12 as char, s[1..])
    else if s[0] == 'u' then UnicodeEscape(s[1..])
    else Bad
  }

  /** The text up to the closing quote; raw control characters are refused. */
  function ParseText(s: string): (p: Parsed<string>)
    ensures p.Read? ==> |p.rest| < |s|
    decreases |s|
  {
    if s == "" || s[0] as int < 32 then Bad
    else if s[0] == '"' then Read("", s[1..])
    else if s[0] == '\\' then
      match Escape(s[1..])
      case Bad => Bad
      case Read(c, r) => match ParseText(r) case Bad => Bad case Read(t, q) => Read([c] + t, q)
    else
      match ParseText(s[1..]) case Bad => Bad case Read(t, q) => Read([s[0]] + t, q)
  }

  function ParseNat(s: string): (p: Parsed<nat>)
    ensures p.Read? ==> |p.rest| < |s|
  {
    var n := if s != "" && s[0] == '0' then 1 else DigitCount(s);
    if n == 0 || (n < |s| && (s[n] == '.' || s[n] == 'e' || s[n] == 'E')) then Bad
    else Read(NatValue(s[..n]), s[n..])
  }

  function ParseNumber(s: string): (p: Parsed<Json>)
    ensures p.Read? ==> |p.rest| < |s|
  {
    if s != "" && s[0] == '-' then
      match ParseNat(s[1..]) case Bad => Bad case Read(n, r) => Read(Int(0 - n as int), r)
    else
      match ParseNat(s) case Bad => Bad case Read(n, r) => Read(Int(n), r)
  }

  function IndexOf(ms: seq<Member>, key: string): (i: nat)
    ensures i <= |ms| && (i < |ms| ==> ms[i].key == key)
    ensures forall j :: 0 <= j < i ==> ms[j].key != key
  {
    if ms == [] || ms[0].key == key then 0 else
      var i := IndexOf(ms[1..], key);
      assert forall j :: 0 < j < i + 1 ==> ms[j].key == ms[1..][j - 1].key;
      i + 1
  }

  /** dict(pairs): a repeated key keeps its first place and its last value. */
  function Collapse(ms: seq<Member>): (r: seq<Member>)
    ensures DistinctKeys(r)
    ensures forall m :: m in r ==> m in ms
  {
    if ms == [] then [] else
      var r, last := Collapse(ms[..|ms| - 1]), ms[|ms| - 1];
      var i := IndexOf(r, last.key);
      assert ms == ms[..|ms| - 1] + [last];
      if i < |r| then r[i := last] else r + [last]
  }

  function ParseValue(s: string): (p: Parsed<Json>)
    ensures p.Read? ==> |p.rest| < |s|
    decreases |s|, 0
  {
    if s == "" then Bad
    else if s[0] == '"' then
      match ParseText(s[1..]) case Bad => Bad case Read(t, r) => Read(Str(t), r)
    else if s[0] == '[' then
      var r := SkipSpace(s[1..]);
      if r != "" && r[0] == ']' then Read(Arr([]), r[1..])
      else match ParseItems(r) case Bad => Bad case Read(items, q) => Read(Arr(items), q)
    else if s[0] == '{' then
      var r := SkipSpace(s[1..]);
      if r != "" && r[0] == '}' then Read(Obj([]), r[1..])
      else match ParseMembers(r) case Bad => Bad case Read(ms, q) => Read(Obj(Collapse(ms)), q)
    else if "null" <= s then Read(Null, s[4..])
    else if "true" <= s then Read(Bool(true), s[4..])
    else if "false" <= s then Read(Bool(false), s[5..])
    else ParseNumber(s)
  }

  function ParseItems(s: string): (p: Parsed<seq<Json>>)
    ensures p.Read? ==> |p.rest| < |s|
    decreases |s|, 1
  {
    match ParseValue(s)
    case Bad => Bad
    case Read(v, tail) =>
      var r := SkipSpace(tail);
      if r != "" && r[0] == ']' then Read([v], r[1..])
      else if r != "" && r[0] == ',' then
        match ParseItems(SkipSpace(r[1..])) case Bad => Bad case Read(vs, q) => Read([v] + vs, q)
      else Bad
  }

  function ParseMember(s: string): (p: Parsed<Member>)
    ensures p.Read? ==> |p.rest| < |s|
    decreases |s|, 1
  {
    if s == "" || s[0] != '"' then Bad
    else
      match ParseText(s[1..])
      case Bad => Bad
      case Read(key, tail) =>
        var r := SkipSpace(tail);
        if r == "" || r[0] != ':' then Bad
        else match ParseValue(SkipSpace(r[1..])) case Bad => Bad case Read(v, q) => Read(Member(key, v), q)
  }

  function ParseMembers(s: string): (p: Parsed<seq<Member>>)
    ensures p.Read? ==> |p.rest| < |s|
    decreases |s|, 2
  {
    match ParseMember(s)
    case Bad => Bad
    case Read(m, tail) =>
      var r := SkipSpace(tail);
      if r != "" && r[0] == '}' then Read([m], r[1..])
      else if r != "" && r[0] == ',' then
        match ParseMembers(SkipSpace(r[1..])) case Bad => Bad case Read(ms, q) => Read([m] + ms, q)
      else Bad
  }

  /** json.loads. */
  function Loads(s: string): Option<Json> {
    match ParseValue(SkipSpace(s))
    case Bad => None
    case Read(v, rest) => if SkipSpace(rest) == "" then Some(v) else None
  }

  // ------------------------------------------------------------- round trip

  predicate Ends(rest: string) {
    rest == "" || rest[0] == ',' || rest[0] == ']' || rest[0] == '}'
  }

  lemma EscapeReadsBack(c: char, more: string)
    ensures EscapeChar(c)[0] == '\\' ==> Escape(EscapeChar(c)[1..] + more) == Read(c, more)
    ensures EscapeChar(c)[0] != '\\' ==> EscapeChar(c) == [c] && c as int >= 32
  {
    var s := EscapeChar(c)[1..] + more;
    if c as int < 32 && c != '\n' && c != '\r' && c != '\t' && c as int != 8 && c as int != 12 {
      assert HexDigit('0') == Some(0);
      assert HexFour(s[1..]) == Some(c as int);
      assert s[1..][4..] == more;
    } else if EscapeChar(c)[0] == '\\' {
      assert s[1..] == more;
    }
  }

  lemma {:induction false} CharacterReadsBack(c: char, more: string, s: string, rest: string)
    requires ParseText(more) == Read(s, rest)
    ensures ParseText(EscapeChar(c) + more) == Read([c] + s, rest)
  {
    hide Escape, EscapeChar;
    var e := EscapeChar(c);
    EscapeReadsBack(c, more);
    assert (e + more)[0] == e[0];
    assert (e + more)[1..] == e[1..] + more;
    if e[0] != '\\' { assert e[1..] + more == more; }
  }

  lemma {:induction false} TextReadsBack(s: string, rest: string)
    ensures ParseText(EscapeText(s) + "\"" + rest) == Read(s, rest)
  {
    hide Escape, EscapeChar;
    var all := EscapeText(s) + "\"" + rest;
    if s == "" {
      assert all[1..] == rest;
    } else {
      hide ParseText;
      var more := EscapeText(s[1..]) + "\"" + rest;
      assert all == EscapeChar(s[0]) + more;
      TextReadsBack(s[1..], rest);
      CharacterReadsBack(s[0], more, s[1..], rest);
      assert s == [s[0]] + s[1..];
    }
  }

  lemma QuotedReadsBack(s: string, rest: string)
    ensures Quoted(s) + rest != "" && (Quoted(s) + rest)[0] == '"'
    ensures ParseText((Quoted(s) + rest)[1..]) == Read(s, rest)
  {
    assert (Quoted(s) + rest)[1..] == EscapeText(s) + "\"" + rest;
    TextReadsBack(s, rest);
  }

  lemma StringReadsBack(s: string, rest: string)
    ensures ParseValue(Quoted(s) + rest) == Read(Str(s), rest)
  {
    hide ParseText, Quoted, ParseItems, ParseMembers;
    QuotedReadsBack(s, rest);
  }

  lemma NatReadsBack(n: nat, rest: string)
    requires Ends(rest)
    ensures ParseNat(NatText(n) + rest) == Read(n, rest)
  {
    var d := NatText(n);
    DigitCountStops(d, rest);
    NatTextRoundTrip(n);
    assert (d + rest)[0] == d[0];
    assert (d + rest)[..|d|] == d && (d + rest)[|d|..] == rest;
  }

  lemma NumberReadsBack(n: int, rest: string)
    requires Ends(rest)
    ensures ParseValue(IntText(n) + rest) == Read(Int(n), rest)
  {
    hide ParseItems, ParseMembers, ParseMember, ParseNat, NatText;
    var s := IntText(n) + rest;
    if n < 0 {
      assert s[1..] == NatText(-n) + rest;
      NatReadsBack(-n, rest);
    } else {
      NatReadsBack(n, rest);
      assert IsDigit(s[0]);
    }
  }

  /** No printed value starts with white space or a closing bracket. */
  lemma PrintHead(v: Json)
    ensures Print(v) != "" && !IsJsonSpace(Print(v)[0]) && Print(v)[0] != ']' && Print(v)[0] != '}'
  {
  }

  lemma {:induction false} CollapseDistinct(ms: seq<Member>)
    requires DistinctKeys(ms)
    ensures Collapse(ms) == ms
  {
    if ms != [] {
      var before, last := ms[..|ms| - 1], ms[|ms| - 1];
      CollapseDistinct(before);
      assert IndexOf(before, last.key) == |before|;
      assert ms == before + [last];
    }
  }

  predicate Starts(s: string) {
    s != "" && !IsJsonSpace(s[0])
  }

  lemma ItemsStep(s: string, v: Json, tail: string, vs: seq<Json>, rest: string)
    requires ParseValue(s) == Read(v, tail)
    requires || (tail == "]" + rest && vs == [])
             || (exists next :: tail == "," + next && Starts(next) && ParseItems(next) == Read(vs, rest))
    ensures ParseItems(s) == Read([v] + vs, rest)
  {
    hide ParseValue, ParseMembers, ParseMember;
    if vs == [] && tail == "]" + rest {
      assert tail[1..] == rest;
      assert [v] + vs == [v];
    } else {
      var next :| tail == "," + next && Starts(next) && ParseItems(next) == Read(vs, rest);
      assert tail[1..] == next;
      assert SkipSpace(next) == next;
    }
  }

  lemma MemberStep(s: string, m: Member, tail: string, ms: seq<Member>, rest: string)
    requires ParseMember(s) == Read(m, tail)
    requires || (tail == "}" + rest && ms == [])
             || (exists next :: tail == "," + next && Starts(next) && ParseMembers(next) == Read(ms, rest))
    ensures ParseMembers(s) == Read([m] + ms, rest)
  {
    hide ParseValue, ParseItems, ParseMember;
    if ms == [] && tail == "}" + rest {
      assert tail[1..] == rest;
      assert [m] + ms == [m];
    } else {
      var next :| tail == "," + next && Starts(next) && ParseMembers(next) == Read(ms, rest);
      assert tail[1..] == next;
      assert SkipSpace(next) == next;
    }
  }

  lemma {:induction false} ArrayStep(inner: string, items: seq<Json>, rest: string)
    requires if items == [] then inner == "]" + rest
             else Starts(inner) && inner[0] != ']' && ParseItems(inner) == Read(items, rest)
    ensures ParseValue("[" + inner) == Read(Arr(items), rest)
  {
    hide ParseItems, ParseMembers, ParseMember;
    assert ("[" + inner)[1..] == inner;
    assert SkipSpace(inner) == inner;
    if items == [] { assert inner[1..] == rest; }
  }

  lemma ObjectStep(inner: string, ms: seq<Member>, rest: string)
    requires if ms == [] then inner == "}" + rest
             else Starts(inner) && inner[0] != '}' && ParseMembers(inner) == Read(ms, rest) && DistinctKeys(ms)
    ensures ParseValue("{" + inner) == Read(Obj(ms), rest)
  {
    hide ParseItems, ParseMembers, ParseMember, Collapse;
    assert ("{" + inner)[1..] == inner;
    assert SkipSpace(inner) == inner;
    if ms == [] { assert inner[1..] == rest; } else { CollapseDistinct(ms); }
  }

  lemma {:induction false} WordReadsBack(word: string, rest: string)
    requires word == "null" || word == "true" || word == "false"
    ensures ParseValue(word + rest) == Read(if word == "null" then Null else Bool(word == "true"), rest)
  {
    hide ParseItems, ParseMembers, ParseMember;
    assert (word + rest)[..|word|] == word;
    assert (word + rest)[|word|..] == rest;
    assert (word + rest)[0] == word[0];
  }

  lemma MemberHead(m: Member)
    ensures PrintMember(m) != "" && PrintMember(m)[0] == '"'
  {
  }

  lemma ArrayReadsBack(items: seq<Json>, rest: string)
    requires items != [] ==> ParseItems(Print(items[0]) + (PrintItems(items[1..]) + rest)) == Read(items, rest)
    ensures ParseValue(Print(Arr(items)) + rest) == Read(Arr(items), rest)
  {
    hide ParseValue, ParseItems, PrintItems;
    if items == [] {
      ArrayStep("]" + rest, items, rest);
      assert Print(Arr(items)) + rest == "[" + ("]" + rest);
    } else {
      var inner := Print(items[0]) + (PrintItems(items[1..]) + rest);
      PrintHead(items[0]);
      ArrayStep(inner, items, rest);
      assert Print(Arr(items)) + rest == "[" + inner;
    }
  }

  lemma ObjectReadsBack(ms: seq<Member>, rest: string)
    requires DistinctKeys(ms)
    requires ms != [] ==> ParseMembers(PrintMember(ms[0]) + (PrintMembers(ms[1..]) + rest)) == Read(ms, rest)
    ensures ParseValue(Print(Obj(ms)) + rest) == Read(Obj(ms), rest)
  {
    hide ParseValue, ParseMembers, PrintMember, PrintMembers;
    if ms == [] {
      ObjectStep("}" + rest, ms, rest);
      assert Print(Obj(ms)) + rest == "{" + ("}" + rest);
    } else {
      var inner := PrintMember(ms[0]) + (PrintMembers(ms[1..]) + rest);
      MemberHead(ms[0]);
      ObjectStep(inner, ms, rest);
      assert Print(Obj(ms)) + rest == "{" + inner;
    }
  }

  lemma ValueReadsBack(v: Json, rest: string)
    requires WellFormed(v) && Ends(rest)
    ensures ParseValue(Print(v) + rest) == Read(v, rest)
    decreases v, 1
  {
    hide ParseValue, ParseItems, ParseMembers, PrintItems, PrintMembers, PrintMember, Quoted, IntText;
    match v
    case Null => WordReadsBack("null", rest);
    case Bool(b) => WordReadsBack(if b then "true" else "false", rest);
    case Int(n) => NumberReadsBack(n, rest);
    case Str(s) => StringReadsBack(s, rest);
    case Arr(items) =>
      if items != [] { ItemsReadBack(items, rest); }
      ArrayReadsBack(items, rest);
    case Obj(ms) =>
      if ms != [] { MembersReadBack(ms, rest); }
      ObjectReadsBack(ms, rest);
  }

  lemma {:induction false} ItemsReadBack(items: seq<Json>, rest: string)
    requires items != [] && Ends(rest) && forall i :: 0 <= i < |items| ==> WellFormed(items[i])
    ensures ParseItems(Print(items[0]) + (PrintItems(items[1..]) + rest)) == Read(items, rest)
    decreases items, 0
  {
    hide ParseValue, ParseItems, ParseMembers, ParseMember, Print;
    var more := items[1..];
    var tail := PrintItems(more) + rest;
    var s := Print(items[0]) + tail;
    ValueReadsBack(items[0], tail);
    assert items == [items[0]] + more;
    if more != [] {
      var next := Print(more[0]) + (PrintItems(more[1..]) + rest);
      assert tail == "," + next;
      PrintHead(more[0]);
      ItemsReadBack(more, rest);
      assert Starts(next);
    }
    ItemsStep(s, items[0], tail, more, rest);
  }

  lemma {:induction false} MemberReadsBack(m: Member, rest: string)
    requires WellFormed(m.value) && Ends(rest)
    ensures ParseMember(PrintMember(m) + rest) == Read(m, rest)
    decreases m, 2
  {
    hide ParseValue, ParseItems, ParseMembers, Print, ParseText, Quoted;
    var value := Print(m.value) + rest;
    assert PrintMember(m) + rest == Quoted(m.key) + (":" + value);
    QuotedReadsBack(m.key, ":" + value);
    assert (":" + value)[1..] == value;
    PrintHead(m.value);
    assert value[0] == Print(m.value)[0];
    assert SkipSpace(value) == value;
    ValueReadsBack(m.value, rest);
  }

  lemma {:induction false} MembersReadBack(ms: seq<Member>, rest: string)
    requires ms != [] && Ends(rest) && forall i :: 0 <= i < |ms| ==> WellFormed(ms[i].value)
    ensures ParseMembers(PrintMember(ms[0]) + (PrintMembers(ms[1..]) + rest)) == Read(ms, rest)
    decreases ms, 0
  {
    hide ParseValue, ParseItems, ParseMembers, ParseMember, Print, PrintMember;
    var more := ms[1..];
    var tail := PrintMembers(more) + rest;
    var s := PrintMember(ms[0]) + tail;
    MemberReadsBack(ms[0], tail);
    assert ms == [ms[0]] + more;
    if more != [] {
      var next := PrintMember(more[0]) + (PrintMembers(more[1..]) + rest);
      assert tail == "," + next;
      MemberHead(more[0]);
      MembersReadBack(more, rest);
      assert Starts(next);
    }
    MemberStep(s, ms[0], tail, more, rest);
  }

  // ------------------------------------------------------------ canonical form

  lemma SortedMembers(ms: seq<Member>)
    requires DistinctKeys(ms)
    ensures var r := Order.Sort(CanonicalMembers(ms), KeyOf);
      && Order.Sorted(r, KeyOf) && DistinctKeys(r)
      && forall m :: m in r <==> m in CanonicalMembers(ms)
  {
    hide Canonical;
    var c := CanonicalMembers(ms);
    Order.SortSorts(c, KeyOf);
    SortedIsDistinct(Order.Sort(c, KeyOf));
  }

  lemma SortedIsDistinct(ms: seq<Member>)
    requires Order.Sorted(ms, KeyOf)
    ensures DistinctKeys(ms)
  {
    forall i, j | 0 <= i < j < |ms| ensures ms[i].key != ms[j].key {
      assert Order.Less(KeyOf(ms[i]), KeyOf(ms[j]));
      Order.LessIrreflexive(ms[i].key);
    }
  }

  /** Sorting what is already canonical changes nothing. */
  lemma {:induction false} CanonicalKeeps(v: Json)
    requires WellFormed(v)
    ensures WellFormed(Canonical(v)) && Canonical(Canonical(v)) == Canonical(v)
    decreases v
  {
    match v
    case Arr(items) =>
      forall i | 0 <= i < |items|
        ensures WellFormed(Canonical(items[i])) && Canonical(Canonical(items[i])) == Canonical(items[i])
      {
        CanonicalKeeps(items[i]);
      }
      assert CanonicalItems(CanonicalItems(items)) == CanonicalItems(items);
    case Obj(ms) =>
      var r := Order.Sort(CanonicalMembers(ms), KeyOf);
      SortedMembers(ms);
      forall i | 0 <= i < |r| ensures WellFormed(r[i].value) && Canonical(r[i].value) == r[i].value {
        assert r[i] in CanonicalMembers(ms);
        var j :| 0 <= j < |ms| && CanonicalMembers(ms)[j] == r[i];
        CanonicalKeeps(ms[j].value);
      }
      assert CanonicalMembers(r) == r;
      SortedMembers(r);
      Order.SortedUnique(Order.Sort(r, KeyOf), r, KeyOf);
    case _ =>
  }

  /** Equality up to the order of members is equality of the canonical forms. */
  lemma {:induction false} CanonicalDecidesSame(v: Json, w: Json)
    requires WellFormed(v) && WellFormed(w)
    ensures Same(v, w) <==> Canonical(v) == Canonical(w)
    decreases v
  {
    if v.Arr? && w.Arr? && |v.items| == |w.items| {
      forall i | 0 <= i < |v.items|
        ensures Same(v.items[i], w.items[i]) <==> Canonical(v.items[i]) == Canonical(w.items[i])
      {
        CanonicalDecidesSame(v.items[i], w.items[i]);
      }
      ItemsAgree(v.items, w.items);
    } else if v.Obj? && w.Obj? {
      forall i, j | 0 <= i < |v.members| && 0 <= j < |w.members|
        ensures Same(v.members[i].value, w.members[j].value)
          <==> Canonical(v.members[i].value) == Canonical(w.members[j].value)
      {
        CanonicalDecidesSame(v.members[i].value, w.members[j].value);
      }
      MembersAgree(v.members, w.members);
    }
  }

  lemma ItemsAgree(xs: seq<Json>, ys: seq<Json>)
    requires |xs| == |ys|
    requires forall i :: 0 <= i < |xs| ==> (Same(xs[i], ys[i]) <==> Canonical(xs[i]) == Canonical(ys[i]))
    ensures Same(Arr(xs), Arr(ys)) <==> Canonical(Arr(xs)) == Canonical(Arr(ys))
  {
    var p, q := CanonicalItems(xs), CanonicalItems(ys);
    if p == q {
      forall i | 0 <= i < |xs| ensures Same(xs[i], ys[i]) { assert p[i] == q[i]; }
    }
    if Same(Arr(xs), Arr(ys)) { assert p == q; }
  }

  lemma MembersAgree(ms: seq<Member>, ns: seq<Member>)
    requires DistinctKeys(ms) && DistinctKeys(ns)
    requires forall i, j :: 0 <= i < |ms| && 0 <= j < |ns| ==>
      (Same(ms[i].value, ns[j].value) <==> Canonical(ms[i].value) == Canonical(ns[j].value))
    ensures Same(Obj(ms), Obj(ns)) <==> Canonical(Obj(ms)) == Canonical(Obj(ns))
  {
    hide Canonical, KeysIn;
    CanonicalOfObject(ms);
    CanonicalOfObject(ns);
    SortedMembers(ms);
    SortedMembers(ns);
    if Same(Obj(ms), Obj(ns)) {
      CoveredElements(ms, ns);
      CoveredElements(ns, ms);
      Order.SortedUnique(Order.Sort(CanonicalMembers(ms), KeyOf), Order.Sort(CanonicalMembers(ns), KeyOf), KeyOf);
    }
    if Order.Sort(CanonicalMembers(ms), KeyOf) == Order.Sort(CanonicalMembers(ns), KeyOf) {
      ElementsCovered(ms, ns);
      ElementsCovered(ns, ms);
    }
  }

  lemma {:induction false} CoveredElements(ms: seq<Member>, ns: seq<Member>)
    requires KeysIn(ms, ns)
    requires forall i, j :: 0 <= i < |ms| && 0 <= j < |ns| && ms[i].key == ns[j].key ==>
      Canonical(ms[i].value) == Canonical(ns[j].value)
    ensures forall m :: m in CanonicalMembers(ms) ==> m in CanonicalMembers(ns)
  {
    hide Canonical;
    var p, q := CanonicalMembers(ms), CanonicalMembers(ns);
    forall i | 0 <= i < |ms| ensures p[i] in q {
      var j :| 0 <= j < |ns| && ns[j].key == ms[i].key;
      assert q[j] == p[i];
    }
  }

  lemma {:induction false} ElementsCovered(ms: seq<Member>, ns: seq<Member>)
    requires DistinctKeys(ns)
    requires forall m :: m in CanonicalMembers(ms) <==> m in CanonicalMembers(ns)
    ensures KeysIn(ms, ns)
    ensures forall i, j :: 0 <= i < |ms| && 0 <= j < |ns| && ms[i].key == ns[j].key ==>
      Canonical(ms[i].value) == Canonical(ns[j].value)
  {
    hide Canonical;
    var p, q := CanonicalMembers(ms), CanonicalMembers(ns);
    forall i | 0 <= i < |ms| ensures exists j :: 0 <= j < |ns| && q[j] == p[i] {
      assert p[i] in p && p[i] in q;
    }
    forall i, j | 0 <= i < |ms| && 0 <= j < |ns| && ms[i].key == ns[j].key
      ensures Canonical(ms[i].value) == Canonical(ns[j].value)
    {
      var k :| 0 <= k < |ns| && q[k] == p[i];
      assert k == j;
    }
  }

  lemma CanonicalOfObject(ms: seq<Member>)
    ensures Canonical(Obj(ms)) == Obj(Order.Sort(CanonicalMembers(ms), KeyOf))
  {
  }

  /** Reading back what canonical_json printed gives the value with its members sorted. */
  lemma CanonicalReadsBack(v: Json)
    requires WellFormed(v)
    ensures Loads(CanonicalJson(v)) == Some(Canonical(v))
  {
    hide ParseValue, Canonical, Print;
    var c := Canonical(v);
    CanonicalKeeps(v);
    ValueReadsBack(c, "");
    PrintHead(c);
    assert Print(c) + "" == Print(c);
  }

  /** canonical_json is injective up to the order of members, and blind to that order. */
  lemma CanonicalJsonDecidesSame(v: Json, w: Json)
    requires WellFormed(v) && WellFormed(w)
    ensures CanonicalJson(v) == CanonicalJson(w) <==> Same(v, w)
  {
    hide Loads, Canonical, Print;
    CanonicalDecidesSame(v, w);
    CanonicalReadsBack(v);
    CanonicalReadsBack(w);
  }

  // ----------------------------------------------- what json.loads can return

  /** json.loads never returns a dictionary with a repeated key. */
  lemma LoadsWellFormed(s: string)
    requires Loads(s).Some?
    ensures WellFormed(Loads(s).value)
  {
    hide ParseValue;
    ParseWellFormed(SkipSpace(s));
  }

  lemma ParseWellFormed(s: string)
    requires ParseValue(s).Read?
    ensures WellFormed(ParseValue(s).value)
    decreases |s|, 0
  {
    hide ParseItems, ParseMembers, ParseText, ParseNumber;
    if s[0] == '[' {
      var r := SkipSpace(s[1..]);
      if r == "" || r[0] != ']' { ItemsWellFormed(r); }
    } else if s[0] == '{' {
      var r := SkipSpace(s[1..]);
      if r == "" || r[0] != '}' {
        MembersWellFormed(r);
        var kept := Collapse(ParseMembers(r).value);
        assert forall i :: 0 <= i < |kept| ==> kept[i] in kept;
      }
    } else {
      assert ParseNumber(s).Read? ==> ParseNumber(s).value.Int? by { NumberIsInt(s); }
    }
  }

  lemma NumberIsInt(s: string)
    ensures ParseNumber(s).Read? ==> ParseNumber(s).value.Int?
  {
  }

  lemma {:induction false} ItemsWellFormed(s: string)
    requires ParseItems(s).Read?
    ensures forall i :: 0 <= i < |ParseItems(s).value| ==> WellFormed(ParseItems(s).value[i])
    decreases |s|, 1
  {
    hide ParseValue, ParseMembers;
    ParseWellFormed(s);
    var r := SkipSpace(ParseValue(s).rest);
    if r[0] == ',' { ItemsWellFormed(SkipSpace(r[1..])); }
  }

  lemma MemberWellFormed(s: string)
    requires ParseMember(s).Read?
    ensures WellFormed(ParseMember(s).value.value)
    decreases |s|, 1
  {
    hide ParseValue, ParseItems, ParseMembers, ParseText;
    var q := SkipSpace(ParseText(s[1..]).rest);
    ParseWellFormed(SkipSpace(q[1..]));
  }

  lemma {:induction false} MembersWellFormed(s: string)
    requires ParseMembers(s).Read?
    ensures forall i :: 0 <= i < |ParseMembers(s).value| ==> WellFormed(ParseMembers(s).value[i].value)
    decreases |s|, 2
  {
    hide ParseItems, ParseMember;
    MemberWellFormed(s);
    var m, r := ParseMember(s).value, SkipSpace(ParseMember(s).rest);
    if r[0] == '}' {
      assert ParseMembers(s).value == [m];
    } else {
      var more := SkipSpace(r[1..]);
      MembersWellFormed(more);
      assert ParseMembers(s).value == [m] + ParseMembers(more).value;
    }
  }

  // ------------------------------------------------------------------ lookup

  /** dict.get(key). */
  function Get(ms: seq<Member>, key: string): Option<Json> {
    var i := IndexOf(ms, key);
    if i < |ms| then Some(ms[i].value) else None
  }

  lemma GetIs(ms: seq<Member>, key: string, v: Json)
    requires DistinctKeys(ms)
    ensures Get(ms, key) == Some(v) <==> Member(key, v) in ms
  {
  }

  lemma GetWellFormed(ms: seq<Member>, key: string)
    requires WellFormed(Obj(ms)) && Get(ms, key).Some?
    ensures WellFormed(Get(ms, key).value)
  {
  }

  /** The last pair of its key. */
  predicate LastOfKey(ms: seq<Member>, i: nat) {
    i < |ms| && forall j :: i < j < |ms| ==> ms[j].key != ms[i].key
  }

  /** Adding one pair replaces the pair of its key, if any, and keeps the others. */
  lemma CollapseStep(before: seq<Member>, last: Member)
    ensures forall m :: m in Collapse(before + [last]) <==> m == last || (m in Collapse(before) && m.key != last.key)
  {
    var r := Collapse(before);
    assert (before + [last])[..|before|] == before;
    var i := IndexOf(r, last.key);
    var c := Collapse(before + [last]);
    if i < |r| {
      assert c == r[i := last];
      assert c[i] == last;
      forall m | m in r && m.key != last.key ensures m in c {
        var j :| 0 <= j < |r| && r[j] == m;
        assert c[j] == m;
      }
    } else {
      assert c == r + [last];
    }
  }

  lemma {:induction false} LastIsKept(ms: seq<Member>, i: nat)
    requires LastOfKey(ms, i)
    ensures ms[i] in Collapse(ms)
  {
    hide Collapse;
    var before, last := ms[..|ms| - 1], ms[|ms| - 1];
    assert ms == before + [last];
    CollapseStep(before, last);
    if i < |before| {
      assert forall j :: i < j < |before| ==> before[j] == ms[j];
      assert ms[|ms| - 1].key != ms[i].key;
      LastIsKept(before, i);
    }
  }

  lemma {:induction false} KeptIsLast(ms: seq<Member>, m: Member) returns (i: nat)
    requires m in Collapse(ms)
    ensures LastOfKey(ms, i) && ms[i] == m
  {
    var before, last := ms[..|ms| - 1], ms[|ms| - 1];
    assert ms == before + [last];
    hide Collapse;
    CollapseStep(before, last);
    if m == last {
      i := |ms| - 1;
    } else {
      i := KeptIsLast(before, m);
      assert forall j :: i < j < |before| ==> ms[j] == before[j];
    }
  }

  lemma {:induction false} LastWithKey(ms: seq<Member>, i: nat) returns (l: nat)
    requires i < |ms|
    ensures LastOfKey(ms, l) && ms[l].key == ms[i].key
    decreases |ms| - i
  {
    if LastOfKey(ms, i) {
      l := i;
    } else {
      var j :| i < j < |ms| && ms[j].key == ms[i].key;
      l := LastWithKey(ms, j);
    }
  }

  ghost predicate IsLast(ms: seq<Member>, m: Member) {
    exists i: nat :: LastOfKey(ms, i) && ms[i] == m
  }

  /** The dictionary of the pairs read holds exactly the last pair of each key, and every key. */
  lemma CollapseKeepsLast(ms: seq<Member>)
    ensures forall m :: m in Collapse(ms) <==> IsLast(ms, m)
    ensures forall i :: 0 <= i < |ms| ==> Get(Collapse(ms), ms[i].key).Some?
  {
    hide Collapse, LastOfKey, Get;
    forall m ensures m in Collapse(ms) <==> IsLast(ms, m) {
      if m in Collapse(ms) {
        var i := KeptIsLast(ms, m);
      }
      if IsLast(ms, m) {
        var i: nat :| LastOfKey(ms, i) && ms[i] == m by { LastInRange(ms); }
        LastIsKept(ms, i);
      }
    }
    forall i | 0 <= i < |ms| ensures Get(Collapse(ms), ms[i].key).Some? {
      var l := LastWithKey(ms, i);
      LastInRange(ms);
      LastIsKept(ms, l);
      GetIs(Collapse(ms), ms[l].key, ms[l].value);
    }
  }

  lemma LastInRange(ms: seq<Member>)
    ensures forall i: nat :: LastOfKey(ms, i) ==> i < |ms|
  {
  }

  /** Lookup commutes with canonicalisation. */
  lemma GetCanonical(ms: seq<Member>, key: string)
    requires DistinctKeys(ms)
    ensures Canonical(Obj(ms)).Obj?
    ensures Get(Canonical(Obj(ms)).members, key)
      == match Get(ms, key) case Some(v) => Some(Canonical(v)) case None => None
  {
    CanonicalOfObject(ms);
    hide Canonical;
    SortedMembers(ms);
    var c, r := CanonicalMembers(ms), Canonical(Obj(ms)).members;
    var i, j := IndexOf(ms, key), IndexOf(r, key);
    if i < |ms| {
      assert c[i] in c && c[i] in r;
      var k :| 0 <= k < |r| && r[k] == c[i];
      assert j == k;
    } else {
      forall k | 0 <= k < |r| ensures r[k].key != key {
        assert r[k] in r && r[k] in c;
        var l :| 0 <= l < |ms| && c[l] == r[k];
      }
    }
  }

  // ------------------------------------------------------------- as a text file

  /** Reading in text mode turns every line ending into a line feed. */
  function UniversalNewlines(s: string): string {
    if s == "" then ""
    else if s[0] == '\r' then "\n" + UniversalNewlines(if |s| > 1 && s[1] == '\n' then s[2..] else s[1..])
    else [s[0]] + UniversalNewlines(s[1..])
  }

  predicate NoControls(s: string) {
    forall i :: 0 <= i < |s| ==> s[i] as int >= 32
  }

  lemma {:induction false} NewlinesUntouched(s: string)
    requires NoControls(s)
    ensures UniversalNewlines(s) == s
  {
    if s != "" {
      NewlinesUntouched(s[1..]);
      assert s == [s[0]] + s[1..];
    }
  }

  lemma {:induction false} EscapedHasNoControls(s: string)
    ensures NoControls(EscapeText(s))
  {
    if s != "" {
      assert NoControls(EscapeChar(s[0]));
      EscapedHasNoControls(s[1..]);
    }
  }

  /** Printed JSON has no line ending and no other control character. */
  lemma {:induction false} PrintHasNoControls(v: Json)
    ensures NoControls(Print(v))
    decreases v, 1
  {
    hide PrintMember, PrintItems, PrintMembers;
    match v
    case Str(s) => EscapedHasNoControls(s);
    case Arr(items) => if items != [] { PrintHasNoControls(items[0]); ItemsHaveNoControls(items[1..]); }
    case Obj(ms) => if ms != [] { MemberHasNoControls(ms[0]); MembersHaveNoControls(ms[1..]); }
    case _ =>
  }

  lemma {:induction false} ItemsHaveNoControls(items: seq<Json>)
    ensures NoControls(PrintItems(items))
    decreases items, 0
  {
    hide Print;
    if items != [] {
      PrintHasNoControls(items[0]);
      ItemsHaveNoControls(items[1..]);
    }
  }

  lemma MemberHasNoControls(m: Member)
    ensures NoControls(PrintMember(m))
    decreases m, 2
  {
    hide Print;
    EscapedHasNoControls(m.key);
    PrintHasNoControls(m.value);
  }

  lemma {:induction false} MembersHaveNoControls(ms: seq<Member>)
    ensures NoControls(PrintMembers(ms))
    decreases ms, 0
  {
    hide PrintMember;
    if ms != [] {
      MemberHasNoControls(ms[0]);
      MembersHaveNoControls(ms[1..]);
    }
  }
}
