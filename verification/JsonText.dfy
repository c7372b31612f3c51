/** The text canonical_json prints is the shortest that json.loads reads as the value. */
module JsonText {
  import opened Base
  import opened Text
  import opened Json
  import Order

  // --------------------------------------------------------------- texts alike but for hexadecimal case

  /** The same character, or the capital of a hexadecimal letter. */
  predicate AlikeChar(a: char, b: char) {
    a == b || ('a' <= b <= 'f' && a as int == b as int - 32)
  }

  ghost predicate Alike(s: string, t: string) {
    |s| == |t| && forall i :: 0 <= i < |s| ==> AlikeChar(s[i], t[i])
  }

  /** Reading from s to its end part rest takes no fewer characters than printed has, and as few only if the characters
      read are the printed ones but for capital hexadecimal letters. */
  ghost predicate NoShorter(s: string, printed: string, rest: string) {
    && |printed| + |rest| <= |s|
    && (|printed| + |rest| == |s| ==> Alike(s, printed + rest))
  }

  lemma AlikeTransitive(s: string, t: string, u: string)
    requires Alike(s, t) && Alike(t, u)
    ensures Alike(s, u)
  {
    forall i | 0 <= i < |s| ensures AlikeChar(s[i], u[i]) {
      assert AlikeChar(s[i], t[i]) && AlikeChar(t[i], u[i]);
    }
  }

  lemma AlikeAfter(p: string, s: string, t: string)
    requires Alike(s, t)
    ensures Alike(p + s, p + t)
  {
  }

  /** Reading one part after the other. */
  lemma Then(s: string, p: string, middle: string, q: string, rest: string)
    requires NoShorter(s, p, middle) && NoShorter(middle, q, rest)
    ensures NoShorter(s, p + q, rest)
  {
    if |p + q| + |rest| == |s| {
      AlikeAfter(p, middle, q + rest);
      assert p + (q + rest) == p + q + rest;
      AlikeTransitive(s, p + middle, p + q + rest);
    }
  }

  lemma Literally(p: string, rest: string)
    ensures NoShorter(p + rest, p, rest)
  {
  }

  lemma {:induction false} SpaceSkipped(s: string)
    ensures NoShorter(s, "", SkipSpace(s))
  {
    if s != "" && IsJsonSpace(s[0]) {
      SpaceSkipped(s[1..]);
    } else {
      assert "" + s == s;
    }
  }

  // -------------------------------------------------------------------------- numerals

  lemma {:induction false} NumeralIsShortest(d: string)
    requires d != "" && AllDigits(d) && (d[0] == '0' ==> d == "0")
    ensures NatText(NatValue(d)) == d
    decreases |d|
  {
    var n := |d| - 1;
    if n == 0 {
      assert d[..0] == "";
      assert d == [d[0]];
      DigitBack(d[0]);
    } else {
      NumeralIsShortest(d[..n]);
      NatTextRoundTrip(NatValue(d[..n]));
      assert NatValue(d[..n]) != 0;
      assert NatValue(d) / 10 == NatValue(d[..n]) && NatValue(d) % 10 == DigitValue(d[n]);
      DigitBack(d[n]);
      assert d == d[..n] + [d[n]];
    }
  }

  lemma DigitBack(c: char)
    requires IsDigit(c)
    ensures DigitValue(c) < 10 && DigitChar(DigitValue(c)) == c
  {
  }

  lemma NatShortest(s: string)
    requires ParseNat(s).Read?
    ensures NoShorter(s, NatText(ParseNat(s).value), ParseNat(s).rest)
  {
    var n := if s != "" && s[0] == '0' then 1 else DigitCount(s);
    var d := s[..n];
    assert AllDigits(d) && d != "";
    NumeralIsShortest(d);
    assert s == d + s[n..];
    Literally(d, s[n..]);
  }

  lemma NumberShortest(s: string)
    requires ParseNumber(s).Read?
    ensures ParseNumber(s).value.Int? && NoShorter(s, IntText(ParseNumber(s).value.number), ParseNumber(s).rest)
  {
    hide ParseNat, NatText, Alike;
    if s != "" && s[0] == '-' {
      var r := s[1..];
      NatShortest(r);
      var n := ParseNat(r).value;
      assert s == "-" + r;
      Literally("-", r);
      Then(s, "-", r, NatText(n), ParseNat(r).rest);
      if n == 0 {
        NatTextRoundTrip(0);
        Shorter(s, "-" + NatText(0), NatText(0), ParseNat(r).rest);
      }
    } else {
      NatShortest(s);
    }
  }

  /** Anything still shorter will do. */
  lemma Shorter(s: string, printed: string, less: string, rest: string)
    requires NoShorter(s, printed, rest) && |less| < |printed|
    ensures NoShorter(s, less, rest)
  {
  }

  // ------------------------------------------------------------------------------ text

  lemma DigitAlike(c: char, d: nat)
    requires HexDigit(c) == Some(d)
    ensures d < 16 && AlikeChar(c, HexChar(d))
  {
  }

  lemma HexAlike(s: string, c: nat)
    requires HexFour(s) == Some(c) && c < 32
    ensures |s| >= 4 && Alike(s[..4], "00" + [HexChar(c / 16), HexChar(c % 16)])
  {
    var a, b, d, e := HexDigit(s[0]).value, HexDigit(s[1]).value, HexDigit(s[2]).value, HexDigit(s[3]).value;
    assert a == 0 && b == 0 && d == c / 16 && e == c % 16;
    DigitAlike(s[0], 0);
    DigitAlike(s[1], 0);
    DigitAlike(s[2], c / 16);
    DigitAlike(s[3], c % 16);
    assert HexChar(0) == '0';
  }

  /** One escape, from the character after the backslash. */
  lemma EscapeShortest(s: string)
    requires Escape(s).Read?
    ensures NoShorter("\\" + s, EscapeChar(Escape(s).value), Escape(s).rest)
  {
    hide HexFour, UnicodeEscape;
    if s[0] == 'u' {
      UnicodeShortest(s[1..]);
      assert "\\" + s == "\\u" + s[1..];
    } else {
      var rest := s[1..];
      assert "\\" + s == ['\\', s[0]] + rest;
    }
  }

  lemma UnicodeShortest(s: string)
    requires UnicodeEscape(s).Read?
    ensures NoShorter("\\u" + s, EscapeChar(UnicodeEscape(s).value), UnicodeEscape(s).rest)
  {
    hide HexFour, HexChar, HexDigit;
    var c, rest := UnicodeEscape(s).value, UnicodeEscape(s).rest;
    assert |rest| + 4 <= |s|;
    if |EscapeChar(c)| == 6 {
      assert c as int < 32 && HexFour(s) == Some(c as int) && rest == s[4..];
      HexAlike(s, c as int);
      assert s == s[..4] + rest;
      var hex := "00" + [HexChar(c as int / 16), HexChar(c as int % 16)];
      assert EscapeChar(c) == "\\u" + hex;
      assert Alike("\\u" + s, "\\u" + hex + rest);
    }
  }

  lemma {:induction false} TextShortest(s: string)
    requires ParseText(s).Read?
    ensures NoShorter(s, EscapeText(ParseText(s).value) + "\"", ParseText(s).rest)
    decreases |s|
  {
    hide EscapeChar, Escape, NoShorter;
    var t, rest := ParseText(s).value, ParseText(s).rest;
    if s[0] == '"' {
      assert s == "\"" + s[1..] && EscapeText(t) + "\"" == "\"";
      Literally("\"", s[1..]);
    } else if s[0] == '\\' {
      var e := Escape(s[1..]);
      EscapeShortest(s[1..]);
      assert s == "\\" + s[1..];
      TextShortest(e.rest);
      CharThenText(s, e.value, e.rest, t[1..], rest);
      assert t == [e.value] + t[1..];
    } else {
      PlainShortest(s);
      TextShortest(s[1..]);
      CharThenText(s, s[0], s[1..], t[1..], rest);
      assert t == [s[0]] + t[1..];
    }
  }

  lemma PlainShortest(s: string)
    requires s != "" && s[0] as int >= 32 && s[0] != '"' && s[0] != '\\'
    ensures NoShorter(s, EscapeChar(s[0]), s[1..])
  {
    assert EscapeChar(s[0]) == [s[0]];
    assert s == [s[0]] + s[1..];
  }

  lemma CharThenText(s: string, c: char, middle: string, t: string, rest: string)
    requires NoShorter(s, EscapeChar(c), middle) && NoShorter(middle, EscapeText(t) + "\"", rest)
    ensures NoShorter(s, EscapeText([c] + t) + "\"", rest)
  {
    hide EscapeChar, NoShorter;
    Then(s, EscapeChar(c), middle, EscapeText(t) + "\"", rest);
    assert ([c] + t)[1..] == t;
    assert EscapeText([c] + t) == EscapeChar(c) + EscapeText(t);
    assert EscapeChar(c) + (EscapeText(t) + "\"") == EscapeText([c] + t) + "\"";
  }

  lemma QuotedShortest(s: string)
    requires s != "" && s[0] == '"' && ParseText(s[1..]).Read?
    ensures NoShorter(s, Quoted(ParseText(s[1..]).value), ParseText(s[1..]).rest)
  {
    hide ParseText, EscapeText, NoShorter;
    TextShortest(s[1..]);
    assert s == "\"" + s[1..];
    Literally("\"", s[1..]);
    Then(s, "\"", s[1..], EscapeText(ParseText(s[1..]).value) + "\"", ParseText(s[1..]).rest);
    assert "\"" + (EscapeText(ParseText(s[1..]).value) + "\"") == Quoted(ParseText(s[1..]).value);
  }

  // ------------------------------------------------------------------- repeated keys

  /** The length of the members as printed after the first one. */
  function MembersLength(ms: seq<Member>): nat {
    if ms == [] then 1 else MembersLength(ms[..|ms| - 1]) + 1 + |PrintMember(ms[|ms| - 1])|
  }

  lemma {:induction false} MembersLengthFront(ms: seq<Member>)
    requires ms != []
    ensures MembersLength(ms) == 1 + |PrintMember(ms[0])| + MembersLength(ms[1..])
    decreases |ms|
  {
    hide PrintMember;
    var n := |ms| - 1;
    if n == 0 {
      assert ms[..0] == [] && ms[1..] == [];
    } else {
      MembersLengthFront(ms[..n]);
      assert ms[..n][1..] == ms[1..][..n - 1] && ms[1..][n - 1] == ms[n];
    }
  }

  lemma {:induction false} MembersPrinted(ms: seq<Member>)
    ensures |PrintMembers(ms)| == MembersLength(ms)
  {
    hide PrintMember;
    if ms != [] {
      MembersPrinted(ms[1..]);
      MembersLengthFront(ms);
    }
  }

  lemma ObjectPrinted(ms: seq<Member>)
    ensures |Print(Obj(ms))| == if ms == [] then 2 else MembersLength(ms)
  {
    hide PrintMember;
    if ms != [] {
      MembersPrinted(ms[1..]);
      MembersLengthFront(ms);
    }
  }

  lemma {:induction false} MembersLengthUpdate(ms: seq<Member>, i: nat, m: Member)
    requires i < |ms|
    ensures MembersLength(ms[i := m]) == MembersLength(ms) - |PrintMember(ms[i])| + |PrintMember(m)|
    decreases |ms|
  {
    hide PrintMember;
    var n := |ms| - 1;
    if i == n {
      assert ms[i := m][..n] == ms[..n];
    } else {
      MembersLengthUpdate(ms[..n], i, m);
      assert ms[i := m][..n] == ms[..n][i := m];
    }
  }

  /** A dictionary with repeated keys prints longer than what is kept of it. */
  lemma {:induction false} CollapseShortens(ms: seq<Member>)
    ensures MembersLength(Collapse(ms)) <= MembersLength(ms)
    ensures MembersLength(Collapse(ms)) == MembersLength(ms) ==> Collapse(ms) == ms
    ensures Collapse(ms) == [] ==> ms == []
  {
    hide PrintMember;
    if ms != [] {
      var before, last := ms[..|ms| - 1], ms[|ms| - 1];
      CollapseShortens(before);
      var r := Collapse(before);
      var i := IndexOf(r, last.key);
      assert ms == before + [last];
      if i < |r| {
        MembersLengthUpdate(r, i, last);
      } else {
        assert (r + [last])[..|r|] == r;
      }
    }
  }

  // ---------------------------------------------------------------------------- values

  /** Reading a value takes no fewer characters than it prints with. */
  lemma {:induction false} ValueShortest(s: string)
    requires ParseValue(s).Read?
    ensures NoShorter(s, Print(ParseValue(s).value), ParseValue(s).rest)
    decreases |s|, 1
  {
    hide ParseText, ParseNumber, ParseItems, ParseMembers, NoShorter, Quoted, PrintItems, PrintMember, PrintMembers;
    hide Collapse, IntText;
    if s[0] == '"' {
      QuotedShortest(s);
    } else if s[0] == '[' {
      ArrayShortest(s);
    } else if s[0] == '{' {
      ObjectShortest(s);
    } else if "null" <= s {
      assert s == "null" + s[4..];
      Literally("null", s[4..]);
    } else if "true" <= s {
      assert s == "true" + s[4..];
      Literally("true", s[4..]);
    } else if "false" <= s {
      assert s == "false" + s[5..];
      Literally("false", s[5..]);
    } else {
      NumberShortest(s);
    }
  }

  lemma {:induction false} ArrayShortest(s: string)
    requires s != "" && s[0] == '[' && ParseValue(s).Read?
    ensures NoShorter(s, Print(ParseValue(s).value), ParseValue(s).rest)
    decreases |s|, 0
  {
    hide ParseItems, NoShorter, PrintItems;
    var r := SkipSpace(s[1..]);
    assert s == "[" + s[1..];
    Literally("[", s[1..]);
    SpaceSkipped(s[1..]);
    Then(s, "[", s[1..], "", r);
    assert "[" + "" == "[";
    if r != "" && r[0] == ']' {
      assert r == "]" + r[1..];
      Literally("]", r[1..]);
      Then(s, "[", r, "]", r[1..]);
      assert "[" + "]" == "[]";
    } else {
      var items, rest := ParseItems(r).value, ParseItems(r).rest;
      ItemsShortest(r);
      Then(s, "[", r, Print(items[0]) + PrintItems(items[1..]), rest);
      assert "[" + (Print(items[0]) + PrintItems(items[1..])) == "[" + Print(items[0]) + PrintItems(items[1..]);
    }
  }

  lemma {:induction false} ItemsShortest(s: string)
    requires ParseItems(s).Read?
    ensures ParseItems(s).value != []
    ensures var items := ParseItems(s).value;
      NoShorter(s, Print(items[0]) + PrintItems(items[1..]), ParseItems(s).rest)
    decreases |s|, 2
  {
    hide ParseValue, NoShorter, Print;
    var v, tail := ParseValue(s).value, ParseValue(s).rest;
    var r := SkipSpace(tail);
    ValueShortest(s);
    SpaceSkipped(tail);
    Then(s, Print(v), tail, "", r);
    assert Print(v) + "" == Print(v);
    assert r == [r[0]] + r[1..];
    Literally([r[0]], r[1..]);
    if r[0] == ']' {
      Then(s, Print(v), r, "]", r[1..]);
      assert [v][1..] == [];
    } else {
      var next := SkipSpace(r[1..]);
      SpaceSkipped(r[1..]);
      Then(r, ",", r[1..], "", next);
      assert "," + "" == ",";
      ItemsShortest(next);
      var vs, rest := ParseItems(next).value, ParseItems(next).rest;
      Then(r, ",", next, Print(vs[0]) + PrintItems(vs[1..]), rest);
      assert "," + (Print(vs[0]) + PrintItems(vs[1..])) == PrintItems(vs);
      Then(s, Print(v), r, PrintItems(vs), rest);
      assert ([v] + vs)[1..] == vs;
    }
  }

  lemma {:induction false} ObjectShortest(s: string)
    requires s != "" && s[0] == '{' && ParseValue(s).Read?
    ensures NoShorter(s, Print(ParseValue(s).value), ParseValue(s).rest)
    decreases |s|, 0
  {
    hide ParseMembers, NoShorter, PrintMember, PrintMembers, Collapse;
    var r := SkipSpace(s[1..]);
    assert s == "{" + s[1..];
    Literally("{", s[1..]);
    SpaceSkipped(s[1..]);
    Then(s, "{", s[1..], "", r);
    assert "{" + "" == "{";
    if r != "" && r[0] == '}' {
      assert r == "}" + r[1..];
      Literally("}", r[1..]);
      Then(s, "{", r, "}", r[1..]);
      assert "{" + "}" == "{}";
    } else {
      var ms, rest := ParseMembers(r).value, ParseMembers(r).rest;
      MembersShortest(r);
      Then(s, "{", r, PrintMember(ms[0]) + PrintMembers(ms[1..]), rest);
      assert "{" + (PrintMember(ms[0]) + PrintMembers(ms[1..])) == Print(Obj(ms));
      CollapseShortens(ms);
      ObjectPrinted(ms);
      ObjectPrinted(Collapse(ms));
      if Collapse(ms) != ms { Shorter(s, Print(Obj(ms)), Print(Obj(Collapse(ms))), rest); }
    }
  }

  lemma {:induction false} MemberShortest(s: string)
    requires ParseMember(s).Read?
    ensures NoShorter(s, PrintMember(ParseMember(s).value), ParseMember(s).rest)
    decreases |s|, 2
  {
    hide ParseValue, ParseText, NoShorter, Print, Quoted;
    var key, tail := ParseText(s[1..]).value, ParseText(s[1..]).rest;
    QuotedShortest(s);
    var r := SkipSpace(tail);
    SpaceSkipped(tail);
    Then(s, Quoted(key), tail, "", r);
    assert Quoted(key) + "" == Quoted(key);
    assert r == ":" + r[1..];
    Literally(":", r[1..]);
    Then(s, Quoted(key), r, ":", r[1..]);
    var next := SkipSpace(r[1..]);
    SpaceSkipped(r[1..]);
    Then(s, Quoted(key) + ":", r[1..], "", next);
    assert Quoted(key) + ":" + "" == Quoted(key) + ":";
    ValueShortest(next);
    Then(s, Quoted(key) + ":", next, Print(ParseValue(next).value), ParseValue(next).rest);
  }

  lemma {:induction false} MembersShortest(s: string)
    requires ParseMembers(s).Read?
    ensures ParseMembers(s).value != []
    ensures var ms := ParseMembers(s).value;
      NoShorter(s, PrintMember(ms[0]) + PrintMembers(ms[1..]), ParseMembers(s).rest)
    decreases |s|, 3
  {
    hide ParseMember, NoShorter, PrintMember;
    var m, tail := ParseMember(s).value, ParseMember(s).rest;
    var r := SkipSpace(tail);
    MemberShortest(s);
    SpaceSkipped(tail);
    Then(s, PrintMember(m), tail, "", r);
    assert PrintMember(m) + "" == PrintMember(m);
    assert r == [r[0]] + r[1..];
    Literally([r[0]], r[1..]);
    if r[0] == '}' {
      Then(s, PrintMember(m), r, "}", r[1..]);
      assert [m][1..] == [];
    } else {
      var next := SkipSpace(r[1..]);
      SpaceSkipped(r[1..]);
      Then(r, ",", r[1..], "", next);
      assert "," + "" == ",";
      MembersShortest(next);
      var ms, rest := ParseMembers(next).value, ParseMembers(next).rest;
      Then(r, ",", next, PrintMember(ms[0]) + PrintMembers(ms[1..]), rest);
      assert "," + (PrintMember(ms[0]) + PrintMembers(ms[1..])) == PrintMembers(ms);
      Then(s, PrintMember(m), r, PrintMembers(ms), rest);
      assert ([m] + ms)[1..] == ms;
    }
  }

  // ----------------------------------------------------------------- the canonical text

  lemma {:induction false} InsertedLength(ms: seq<Member>, m: Member, below: (Member, Member) -> bool)
    ensures MembersLength(Order.Insert(ms, m, below)) == MembersLength(ms) + 1 + |PrintMember(m)|
  {
    hide PrintMember;
    if ms == [] || below(m, ms[0]) {
      MembersLengthFront([m] + ms);
      assert ([m] + ms)[1..] == ms;
      if ms == [] { assert [m] + ms == [m]; }
    } else {
      InsertedLength(ms[1..], m, below);
      MembersLengthFront(ms);
      var r := Order.Insert(ms[1..], m, below);
      MembersLengthFront([ms[0]] + r);
      assert ([ms[0]] + r)[1..] == r;
    }
  }

  lemma {:induction false} SortedLength(ms: seq<Member>)
    ensures MembersLength(Order.Sort(ms, KeyOf)) == MembersLength(ms)
  {
    hide PrintMember;
    if ms != [] {
      SortedLength(ms[..|ms| - 1]);
      InsertedLength(Order.Sort(ms[..|ms| - 1], KeyOf), ms[|ms| - 1], Order.ByKey(KeyOf));
    }
  }

  /** Sorting keys does not change how long a value prints. */
  lemma {:induction false} CanonicalLength(v: Json)
    ensures |Print(Canonical(v))| == |Print(v)|
    decreases v
  {
    match v
    case Arr(items) =>
      forall i | 0 <= i < |items| ensures |Print(Canonical(items[i]))| == |Print(items[i])| {
        CanonicalLength(items[i]);
      }
      ItemsLength(items, CanonicalItems(items));
    case Obj(ms) =>
      forall i | 0 <= i < |ms| ensures |Print(Canonical(ms[i].value))| == |Print(ms[i].value)| {
        CanonicalLength(ms[i].value);
      }
      MembersKeepLength(ms, CanonicalMembers(ms));
      SortedLength(CanonicalMembers(ms));
      ObjectPrinted(ms);
      ObjectPrinted(Order.Sort(CanonicalMembers(ms), KeyOf));
    case _ =>
  }

  lemma {:induction false} ItemsLength(xs: seq<Json>, ys: seq<Json>)
    requires |xs| == |ys| && forall i :: 0 <= i < |xs| ==> |Print(ys[i])| == |Print(xs[i])|
    ensures |PrintItems(ys)| == |PrintItems(xs)| && |Print(Arr(ys))| == |Print(Arr(xs))|
  {
    if xs != [] { ItemsLength(xs[1..], ys[1..]); }
  }

  lemma {:induction false} MembersKeepLength(ms: seq<Member>, ns: seq<Member>)
    requires |ms| == |ns|
    requires forall i :: 0 <= i < |ms| ==> ns[i].key == ms[i].key && |Print(ns[i].value)| == |Print(ms[i].value)|
    ensures MembersLength(ns) == MembersLength(ms)
  {
    hide Print, Quoted;
    if ms != [] { MembersKeepLength(ms[..|ms| - 1], ns[..|ns| - 1]); }
  }

  /** The keys of every dictionary stand in that order. */
  ghost predicate KeysAscend(v: Json)
    decreases v
  {
    match v
    case Arr(items) => forall i :: 0 <= i < |items| ==> KeysAscend(items[i])
    case Obj(ms) =>
      && (forall i, j :: 0 <= i < j < |ms| ==> Order.Precedes(ms[i].key, ms[j].key))
      && forall i :: 0 <= i < |ms| ==> KeysAscend(ms[i].value)
    case _ => true
  }

  lemma SortedAscends(ms: seq<Member>)
    ensures Order.Sorted(ms, KeyOf) <==> forall i, j :: 0 <= i < j < |ms| ==> Order.Precedes(ms[i].key, ms[j].key)
  {
    hide Order.Precedes, Order.Less;
    forall i, j | 0 <= i < j < |ms|
      ensures Order.Less(KeyOf(ms[i]), KeyOf(ms[j])) <==> Order.Precedes(ms[i].key, ms[j].key)
    {
      Order.LessIsPrecedes(ms[i].key, ms[j].key);
    }
  }

  /** The canonical form has its keys in order, and is the only form that has. */
  lemma {:induction false} CanonicalAscends(v: Json)
    requires WellFormed(v)
    ensures KeysAscend(Canonical(v))
    decreases v
  {
    hide Order.Precedes;
    match v
    case Arr(items) =>
      forall i | 0 <= i < |items| ensures KeysAscend(Canonical(items[i])) { CanonicalAscends(items[i]); }
    case Obj(ms) =>
      var r := Order.Sort(CanonicalMembers(ms), KeyOf);
      SortedMembers(ms);
      SortedAscends(r);
      forall i | 0 <= i < |r| ensures KeysAscend(r[i].value) {
        assert r[i] in CanonicalMembers(ms);
        var j :| 0 <= j < |ms| && CanonicalMembers(ms)[j] == r[i];
        CanonicalAscends(ms[j].value);
      }
    case _ =>
  }

  lemma {:induction false} AscendingIsCanonical(v: Json)
    requires WellFormed(v) && KeysAscend(v)
    ensures Canonical(v) == v
    decreases v
  {
    hide Order.Precedes;
    match v
    case Arr(items) =>
      forall i | 0 <= i < |items| ensures Canonical(items[i]) == items[i] { AscendingIsCanonical(items[i]); }
      assert CanonicalItems(items) == items;
    case Obj(ms) =>
      forall i | 0 <= i < |ms| ensures Canonical(ms[i].value) == ms[i].value { AscendingIsCanonical(ms[i].value); }
      assert CanonicalMembers(ms) == ms;
      SortedAscends(ms);
      SortedMembers(ms);
      Order.SortedUnique(Order.Sort(ms, KeyOf), ms, KeyOf);
    case _ =>
  }

  lemma LoadsShortest(t: string)
    requires Loads(t).Some?
    ensures |Print(Loads(t).value)| <= |t|
    ensures |Print(Loads(t).value)| == |t| ==> Alike(t, Print(Loads(t).value))
  {
    hide ParseValue, Print, Alike;
    var s := SkipSpace(t);
    var v, rest := ParseValue(s).value, ParseValue(s).rest;
    SpaceSkipped(t);
    ValueShortest(s);
    Then(t, "", s, Print(v), rest);
    SpaceSkipped(rest);
    Then(t, "" + Print(v), rest, "", "");
    assert "" + Print(v) + "" == Print(v) && Print(v) + "" == Print(v);
  }

  /** Among all texts that json.loads reads as the value, up to the order of keys, canonical_json prints a shortest one;
      and a text as short, with its keys in code-point order, is that text but for capital hexadecimal letters. */
  lemma CanonicalIsShortest(v: Json, t: string)
    requires WellFormed(v) && Loads(t).Some? && Same(Loads(t).value, v)
    ensures |CanonicalJson(v)| <= |t|
    ensures |CanonicalJson(v)| == |t| && KeysAscend(Loads(t).value) ==> Alike(t, CanonicalJson(v))
  {
    hide Loads, Print, Canonical, Alike, Same, KeysAscend;
    var w := Loads(t).value;
    LoadsWellFormed(t);
    LoadsShortest(t);
    CanonicalDecidesSame(w, v);
    CanonicalLength(w);
    if KeysAscend(w) { AscendingIsCanonical(w); }
  }

  /** The printed text is one of those: it reads as the value, with its keys in order. */
  lemma CanonicalTextReads(v: Json)
    requires WellFormed(v)
    ensures Loads(CanonicalJson(v)).Some?
    ensures Same(Loads(CanonicalJson(v)).value, v) && KeysAscend(Loads(CanonicalJson(v)).value)
  {
    hide Loads, Print, Canonical, Same, KeysAscend;
    CanonicalReadsBack(v);
    CanonicalAscends(v);
    CanonicalKeeps(v);
    CanonicalDecidesSame(Canonical(v), v);
  }
}
