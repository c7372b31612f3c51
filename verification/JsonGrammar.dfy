/** json.loads against the grammar of RFC 8259, as far as integers go: it reads exactly the texts of the grammar. */
module JsonGrammar {
  import opened Base
  import opened Text
  import opened Json

  // ------------------------------------------------------------------ the grammar

  /** Blanks, tabs, line feeds and carriage returns. */
  ghost predicate White(w: string) {
    forall i :: 0 <= i < |w| ==> w[i] as int in {0x20, 0x9, 0xA, 0xD}
  }

  ghost predicate HexIs(c: char, d: nat) {
    d < 16 && (c == "0123456789abcdef"[d] || c == "0123456789ABCDEF"[d])
  }

  /** Four hexadecimal digits with this value. */
  ghost predicate Quad(h: string, n: nat) {
    exists a: nat, b: nat, c: nat, d: nat ::
      |h| == 4 && HexIs(h[0], a) && HexIs(h[1], b) && HexIs(h[2], c) && HexIs(h[3], d)
      && n == ((a * 16 + b) * 16 + c) * 16 + d
  }

  /** The two-character escapes. */
  ghost predicate Short(e: char, c: char) {
    || (e == c && (c == '"' || c == '\\' || c == '/'))
    || (e == 'b' && c as int == 8) || (e == 'f' && c as int == 12) || (e == 'n' && c as int == 10)
    || (e == 'r' && c as int == 13) || (e == 't' && c as int == 9)
  }

  /** A character as itself, or escaped. */
  ghost predicate Spell(a: string, c: char) {
    || (a == [c] && c as int >= 32 && c != '"' && c != '\\')
    || (|a| == 2 && a[0] == '\\' && Short(a[1], c))
    || (|a| == 6 && a[..2] == "\\u" && Quad(a[2..], c as int))
    || (|a| == 12 && a[..2] == "\\u" && a[6..8] == "\\u"
        && exists high: nat, low: nat ::
             && Quad(a[2..6], high) && Quad(a[8..], low) && 0xD800 <= high < 0xDC00 && 0xDC00 <= low < 0xE000
             && c as int == 0x10000 + (high - 0xD800) * 0x400 + (low - 0xDC00))
  }

  /** The inside of a literal. */
  ghost predicate Spells(t: string, s: string)
    decreases s
  {
    if s == "" then t == ""
    else exists n: nat :: n <= |t| && Spell(t[..n], s[0]) && Spells(t[n..], s[1..])
  }

  /** Digits without a leading zero. */
  ghost predicate Numeral(t: string, n: nat) {
    t != "" && AllDigits(t) && (t[0] == '0' ==> t == "0") && NatValue(t) == n
  }

  ghost predicate Number(t: string, n: int) {
    (n >= 0 && Numeral(t, n)) || (n <= 0 && t != "" && t[0] == '-' && Numeral(t[1..], -n))
  }

  // ------------------------------------------------------------------ literals

  lemma HexLow(c: char, d: nat)
    requires d < 10
    ensures HexDigit(c) == Some(d) <==> HexIs(c, d)
  {
    var a, b := "0123456789abcdef", "0123456789ABCDEF";
    assert a[d] as int == 48 + d && b[d] as int == 48 + d;
  }

  lemma HexHigh(c: char, d: nat)
    requires 10 <= d < 16
    ensures HexDigit(c) == Some(d) <==> HexIs(c, d)
  {
    var a, b := "0123456789abcdef", "0123456789ABCDEF";
    assert a[d] as int == 87 + d && b[d] as int == 55 + d;
  }

  lemma HexDigitIs(c: char, d: nat)
    ensures HexDigit(c) == Some(d) <==> HexIs(c, d)
  {
    if d < 10 { HexLow(c, d); } else if d < 16 { HexHigh(c, d); }
  }

  lemma QuadRead(s: string, n: nat)
    requires HexFour(s) == Some(n)
    ensures Quad(s[..4], n)
  {
    hide HexDigit, HexIs;
    HexDigitIs(s[0], HexDigit(s[0]).value);
    HexDigitIs(s[1], HexDigit(s[1]).value);
    HexDigitIs(s[2], HexDigit(s[2]).value);
    HexDigitIs(s[3], HexDigit(s[3]).value);
  }

  lemma QuadTaken(h: string, n: nat, rest: string)
    requires Quad(h, n)
    ensures HexFour(h + rest) == Some(n)
  {
    hide HexDigit, HexIs;
    var a: nat, b: nat, c: nat, d: nat :|
      |h| == 4 && HexIs(h[0], a) && HexIs(h[1], b) && HexIs(h[2], c) && HexIs(h[3], d)
      && n == ((a * 16 + b) * 16 + c) * 16 + d;
    HexDigitIs(h[0], a);
    HexDigitIs(h[1], b);
    HexDigitIs(h[2], c);
    HexDigitIs(h[3], d);
  }

  lemma UnicodeRead(s: string, c: char, rest: string)
    requires UnicodeEscape(s) == Read(c, rest)
    ensures |s| >= |rest| && s == s[..|s| - |rest|] + rest && Spell("\\u" + s[..|s| - |rest|], c)
  {
    hide HexFour, Quad;
    var n := HexFour(s).value;
    QuadRead(s, n);
    var a := "\\u" + s[..|s| - |rest|];
    if n < 0xD800 || 0xE000 <= n {
      assert a[..2] == "\\u" && a[2..] == s[..4];
    } else {
      var low := HexFour(s[6..]).value;
      QuadRead(s[6..], low);
      assert a[..2] == "\\u" && a[6..8] == "\\u" && a[2..6] == s[..4] && a[8..] == s[6..][..4];
    }
  }

  lemma UnicodeTaken(a: string, c: char, rest: string)
    requires (|a| == 6 && a[..2] == "\\u" && Quad(a[2..], c as int))
    ensures UnicodeEscape(a[2..] + rest) == Read(c, rest)
  {
    hide HexFour, Quad;
    var s := a[2..] + rest;
    QuadTaken(a[2..], c as int, rest);
    assert s[4..] == rest;
  }

  lemma PairTaken(a: string, c: char, rest: string, high: nat, low: nat)
    requires |a| == 12 && a[..2] == "\\u" && a[6..8] == "\\u" && Quad(a[2..6], high) && Quad(a[8..], low)
    requires 0xD800 <= high < 0xDC00 && 0xDC00 <= low < 0xE000
    requires c as int == 0x10000 + (high - 0xD800) * 0x400 + (low - 0xDC00)
    ensures UnicodeEscape(a[2..] + rest) == Read(c, rest)
  {
    hide HexFour, Quad;
    var s := a[2..] + rest;
    QuadTaken(a[2..6], high, a[6..] + rest);
    assert s == a[2..6] + (a[6..] + rest);
    assert s[4] == a[6] && s[5] == a[7];
    assert a[6..8][0] == a[6] && a[6..8][1] == a[7];
    QuadTaken(a[8..], low, rest);
    assert s[6..] == a[8..] + rest && s[10..] == rest;
  }

  lemma ShortRead(s: string, c: char, rest: string)
    requires Escape(s) == Read(c, rest) && s[0] != 'u'
    ensures s != "" && rest == s[1..] && Short(s[0], c)
  {
  }

  lemma ShortSpelled(e: char, c: char)
    requires Short(e, c)
    ensures Spell("\\" + [e], c)
  {
    hide Quad, Short;
    var a := "\\" + [e];
    assert a[0] == '\\' && a[1] == e;
  }

  lemma EscapeRead(s: string, c: char, rest: string)
    requires Escape(s) == Read(c, rest)
    ensures |s| >= |rest| && s == s[..|s| - |rest|] + rest && Spell("\\" + s[..|s| - |rest|], c)
  {
    hide UnicodeEscape, Spell;
    if s[0] == 'u' {
      UnicodeRead(s[1..], c, rest);
      assert "\\" + s[..|s| - |rest|] == "\\u" + s[1..][..|s| - 1 - |rest|];
    } else {
      ShortRead(s, c, rest);
      ShortSpelled(s[0], c);
      assert s[..1] == [s[0]];
    }
  }

  lemma EscapeTaken(a: string, c: char, rest: string)
    requires Spell(a, c) && a != "" && a[0] == '\\'
    ensures Escape(a[1..] + rest) == Read(c, rest)
  {
    hide UnicodeEscape, Quad;
    var s := a[1..] + rest;
    assert s[1..] == a[2..] + rest;
    if |a| == 6 {
      assert a[..2][1] == 'u';
      UnicodeTaken(a, c, rest);
    } else if |a| == 12 {
      assert a[..2][1] == 'u';
      var high: nat, low: nat :| Quad(a[2..6], high) && Quad(a[8..], low) && 0xD800 <= high < 0xDC00
        && 0xDC00 <= low < 0xE000 && c as int == 0x10000 + (high - 0xD800) * 0x400 + (low - 0xDC00);
      PairTaken(a, c, rest, high, low);
    }
  }

  /** One spelled character after the other. */
  lemma SpellsMore(a: string, c: char, t: string, s: string)
    requires Spell(a, c) && Spells(t, s)
    ensures Spells(a + t, [c] + s)
  {
    hide Spell;
    var n := |a|;
    assert (a + t)[..n] == a && (a + t)[n..] == t && ([c] + s)[1..] == s;
  }

  lemma SpelledHead(a: string, c: char)
    requires Spell(a, c)
    ensures a != "" && a[0] as int >= 32 && a[0] != '"' && (a[0] != '\\' ==> a == [c])
  {
    hide Quad;
    assert |a| >= 6 && a[..2] == "\\u" ==> a[..2][0] == a[0];
  }

  /** The first character of a literal's inside is read, spelled so. */
  lemma FirstRead(s: string, t: string, rest: string) returns (a: string, r: string)
    requires ParseText(s) == Read(t, rest) && s[0] != '"'
    ensures a != "" && s == a + r && t != "" && Spell(a, t[0]) && ParseText(r) == Read(t[1..], rest)
  {
    hide Spell, Escape;
    if s[0] == '\\' {
      r := Escape(s[1..]).rest;
      EscapeRead(s[1..], Escape(s[1..]).value, r);
      a := "\\" + s[1..][..|s| - 1 - |r|];
    } else {
      a, r := [s[0]], s[1..];
      ItselfSpelled(s[0]);
    }
  }

  lemma {:induction false} TextRead(s: string, t: string, rest: string) returns (body: string)
    requires ParseText(s) == Read(t, rest)
    ensures s == body + "\"" + rest && Spells(body, t)
    decreases |s|
  {
    hide Spell, Spells, Escape;
    if s[0] == '"' {
      body := "";
      NothingSpelled();
      assert s == "" + "\"" + s[1..];
    } else {
      var a, r := FirstRead(s, t, rest);
      var more := TextRead(r, t[1..], rest);
      body := a + more;
      SpellsMore(a, t[0], more, t[1..]);
      assert t == [t[0]] + t[1..];
    }
  }

  lemma NothingSpelled()
    ensures Spells("", "")
  {
  }

  lemma ItselfSpelled(c: char)
    requires c as int >= 32 && c != '"' && c != '\\'
    ensures Spell([c], c)
  {
  }

  lemma SpelledParts(body: string, t: string) returns (n: nat)
    requires Spells(body, t) && t != ""
    ensures n <= |body| && Spell(body[..n], t[0]) && Spells(body[n..], t[1..])
  {
    hide Spell;
    n :| n <= |body| && Spell(body[..n], t[0]) && Spells(body[n..], t[1..]);
  }

  lemma NoneSpelled(body: string)
    requires Spells(body, "")
    ensures body == ""
  {
  }

  lemma {:induction false} TextTaken(body: string, t: string, rest: string)
    requires Spells(body, t)
    ensures ParseText(body + "\"" + rest) == Read(t, rest)
    decreases |t|
  {
    hide Spell, Spells, Escape;
    var s := body + "\"" + rest;
    if t == "" {
      NoneSpelled(body);
      assert s[0] == '"' && s[1..] == rest;
    } else {
      var n := SpelledParts(body, t);
      var a := body[..n];
      SpelledHead(a, t[0]);
      TextTaken(body[n..], t[1..], rest);
      var after := body[n..] + "\"" + rest;
      assert s == a + after && s[0] == a[0];
      assert t == [t[0]] + t[1..];
      if a[0] == '\\' {
        EscapeTaken(a, t[0], after);
        assert s[1..] == a[1..] + after;
      } else {
        assert s[1..] == after;
      }
    }
  }

  // ------------------------------------------------------------------ numbers

  lemma NatRead(s: string, n: nat, rest: string)
    requires ParseNat(s) == Read(n, rest)
    ensures |rest| < |s| && s == s[..|s| - |rest|] + rest && Numeral(s[..|s| - |rest|], n)
  {
    var k := if s != "" && s[0] == '0' then 1 else DigitCount(s);
    assert s[..k][0] == s[0];
    assert k == 1 && s[0] == '0' ==> s[..k] == "0";
  }

  lemma NumberRead(s: string, n: int, rest: string)
    requires ParseNumber(s) == Read(Int(n), rest)
    ensures |rest| < |s| && s == s[..|s| - |rest|] + rest && Number(s[..|s| - |rest|], n)
  {
    hide Numeral, ParseNat;
    if s != "" && s[0] == '-' {
      NatRead(s[1..], -n, rest);
      var t := s[..|s| - |rest|];
      assert t[1..] == s[1..][..|s| - 1 - |rest|];
    } else {
      NatRead(s, n, rest);
    }
  }

  /** Nothing that could belong to a number follows. */
  ghost predicate Apart(rest: string) {
    rest == "" || (!IsDigit(rest[0]) && rest[0] != '.' && rest[0] != 'e' && rest[0] != 'E')
  }

  lemma NatTaken(t: string, n: nat, rest: string)
    requires Numeral(t, n) && Apart(rest)
    ensures ParseNat(t + rest) == Read(n, rest)
  {
    DigitCountStops(t, rest);
    assert (t + rest)[..|t|] == t && (t + rest)[|t|..] == rest && (t + rest)[0] == t[0];
  }

  lemma NumberTaken(t: string, n: int, rest: string)
    requires Number(t, n) && Apart(rest)
    ensures ParseNumber(t + rest) == Read(Int(n), rest) && t != "" && (t[0] == '-' || IsDigit(t[0]))
  {
    hide ParseNat;
    if n >= 0 && Numeral(t, n) {
      NatTaken(t, n, rest);
      assert IsDigit(t[0]) && (t + rest)[0] == t[0];
    } else {
      NatTaken(t[1..], -n, rest);
      assert (t + rest)[1..] == t[1..] + rest;
    }
  }

  // ------------------------------------------------------------------ values

  /** The text, without white space around it, denotes the value. */
  ghost predicate Value(t: string, v: Json)
    decreases |t|, 0
  {
    match v
    case Null => t == "null"
    case Bool(b) => t == if b then "true" else "false"
    case Int(n) => Number(t, n)
    case Str(s) => |t| >= 2 && t[0] == '"' && t[|t| - 1] == '"' && Spells(t[1..|t| - 1], s)
    case Arr(items) =>
      t != "" && t[0] == '['
      && exists k: nat :: 1 <= k <= |t| && White(t[1..k])
           && if items == [] then t[k..] == "]" else Elements(t[k..], items)
    case Obj(ms) =>
      t != "" && t[0] == '{'
      && exists k: nat, raw: seq<Member> :: 1 <= k <= |t| && White(t[1..k]) && ms == Collapse(raw)
           && if raw == [] then t[k..] == "}" else Members(t[k..], raw)
  }

  /** One value or several with commas between them, up to the closing bracket. */
  ghost predicate Elements(e: string, items: seq<Json>)
    decreases |e|, 2
  {
    if |items| == 1 then exists i: nat, j: nat :: LastAt(e, items[0], i, j)
    else items != [] && exists i: nat, j: nat, k: nat :: MoreAt(e, items, i, j, k)
  }

  ghost predicate LastAt(e: string, v: Json, i: nat, j: nat)
    decreases |e|, 1
  {
    i <= j < |e| && Value(e[..i], v) && White(e[i..j]) && e[j..] == "]"
  }

  ghost predicate MoreAt(e: string, items: seq<Json>, i: nat, j: nat, k: nat)
    requires items != []
    decreases |e|, 1
  {
    && i <= j < k <= |e| && Value(e[..i], items[0]) && White(e[i..j]) && e[j] == ',' && White(e[j + 1..k])
    && Elements(e[k..], items[1..])
  }

  /** One member or several with commas between them, up to the closing brace. */
  ghost predicate Members(e: string, ms: seq<Member>)
    decreases |e|, 2
  {
    if |ms| == 1 then exists i: nat, j: nat :: LastMemberAt(e, ms[0], i, j)
    else ms != [] && exists i: nat, j: nat, k: nat :: MoreMembersAt(e, ms, i, j, k)
  }

  ghost predicate LastMemberAt(e: string, m: Member, i: nat, j: nat)
    decreases |e|, 1
  {
    i <= j < |e| && MemberText(e[..i], m) && White(e[i..j]) && e[j..] == "}"
  }

  ghost predicate MoreMembersAt(e: string, ms: seq<Member>, i: nat, j: nat, k: nat)
    requires ms != []
    decreases |e|, 1
  {
    && i <= j < k <= |e| && MemberText(e[..i], ms[0]) && White(e[i..j]) && e[j] == ',' && White(e[j + 1..k])
    && Members(e[k..], ms[1..])
  }

  /** A literal, a colon and a value. */
  ghost predicate MemberText(t: string, m: Member)
    decreases |t|, 2
  {
    exists i: nat, j: nat, k: nat :: MemberAt(t, m, i, j, k)
  }

  ghost predicate MemberAt(t: string, m: Member, i: nat, j: nat, k: nat)
    decreases |t|, 1
  {
    && 2 <= i <= j < k <= |t| && t[0] == '"' && t[i - 1] == '"' && Spells(t[1..i - 1], m.key)
    && White(t[i..j]) && t[j] == ':' && White(t[j + 1..k]) && Value(t[k..], m.value)
  }

  // ------------------------------------------------------------------ white space

  lemma WhiteIsSpace(c: char)
    ensures IsJsonSpace(c) <==> c as int in {0x20, 0x9, 0xA, 0xD}
  {
  }

  lemma WhiteMore(c: char, w: string)
    requires IsJsonSpace(c) && White(w)
    ensures White([c] + w)
  {
    WhiteIsSpace(c);
  }

  lemma NoWhite()
    ensures White("")
  {
  }

  lemma OneInFront(s: string, more: string, rest: string)
    requires s != "" && s[1..] == more + rest
    ensures s == [s[0]] + more + rest
  {
    assert s == [s[0]] + s[1..];
  }

  lemma {:induction false} SpaceRead(s: string) returns (w: string)
    ensures s == w + SkipSpace(s) && White(w)
    decreases |s|
  {
    hide White, IsJsonSpace;
    if s != "" && IsJsonSpace(s[0]) {
      var more := SpaceRead(s[1..]);
      w := [s[0]] + more;
      WhiteMore(s[0], more);
      OneInFront(s, more, SkipSpace(s[1..]));
    } else {
      w := "";
      NoWhite();
    }
  }

  lemma {:induction false} SpaceTaken(w: string, rest: string)
    requires White(w) && (rest == "" || !IsJsonSpace(rest[0]))
    ensures SkipSpace(w + rest) == rest
    decreases |w|
  {
    if w == "" {
      assert w + rest == rest;
    } else {
      WhiteIsSpace(w[0]);
      SpaceTaken(w[1..], rest);
      assert (w + rest)[1..] == w[1..] + rest;
    }
  }

  // ------------------------------------------------------------------ building texts of the grammar

  lemma LiteralText(body: string, s: string)
    requires Spells(body, s)
    ensures Value("\"" + body + "\"", Str(s))
  {
    hide Spells;
    var t := "\"" + body + "\"";
    assert t[1..|t| - 1] == body;
  }

  lemma NoElements(w: string)
    requires White(w)
    ensures Value("[" + w + "]", Arr([]))
  {
    hide White;
    var t, k := "[" + w + "]", |w| + 1;
    assert t[1..k] == w && t[k..] == "]";
  }

  lemma ArrayText(w: string, e: string, items: seq<Json>)
    requires White(w) && Elements(e, items)
    ensures Value("[" + w + e, Arr(items))
  {
    hide White;
    var t, k := "[" + w + e, |w| + 1;
    assert Elements(e, items);
    assert t[1..k] == w && t[k..] == e;
  }

  lemma NoMembers(w: string)
    requires White(w)
    ensures Value("{" + w + "}", Obj([]))
  {
    hide White;
    var t, k := "{" + w + "}", |w| + 1;
    assert t[1..k] == w && t[k..] == "}";
    assert Collapse([]) == [];
  }

  lemma ObjectText(w: string, e: string, raw: seq<Member>)
    requires White(w) && Members(e, raw)
    ensures Value("{" + w + e, Obj(Collapse(raw)))
  {
    hide White, Collapse;
    var t, k := "{" + w + e, |w| + 1;
    assert Members(e, raw);
    assert t[1..k] == w && t[k..] == e;
  }

  lemma LastElement(a: string, v: Json, w: string)
    requires Value(a, v) && White(w)
    ensures Elements(a + w + "]", [v])
  {
    hide White, Value;
    var e, i, j := a + w + "]", |a|, |a| + |w|;
    assert e[..i] == a && e[i..j] == w && e[j..] == "]";
    assert LastAt(e, [v][0], i, j);
  }

  lemma SomeElements(e: string, items: seq<Json>)
    requires Elements(e, items)
    ensures items != []
  {
  }

  lemma MoreElements(a: string, v: Json, w: string, x: string, e: string, items: seq<Json>)
    requires Value(a, v) && White(w) && White(x) && Elements(e, items)
    ensures Elements(a + w + "," + x + e, [v] + items)
  {
    hide White, Value;
    var t, i, j := a + w + "," + x + e, |a|, |a| + |w|;
    var k := j + 1 + |x|;
    assert t[..i] == a && t[i..j] == w && t[j] == ',' && t[j + 1..k] == x && t[k..] == e;
    SomeElements(e, items);
    assert ([v] + items)[1..] == items;
    assert MoreAt(t, [v] + items, i, j, k);
  }

  lemma LastMember(a: string, m: Member, w: string)
    requires MemberText(a, m) && White(w)
    ensures Members(a + w + "}", [m])
  {
    hide White, MemberText;
    var e, i, j := a + w + "}", |a|, |a| + |w|;
    assert e[..i] == a && e[i..j] == w && e[j..] == "}";
    assert LastMemberAt(e, [m][0], i, j);
  }

  lemma SomeMembers(e: string, ms: seq<Member>)
    requires Members(e, ms)
    ensures ms != []
  {
  }

  lemma MoreMembers(a: string, m: Member, w: string, x: string, e: string, ms: seq<Member>)
    requires MemberText(a, m) && White(w) && White(x) && Members(e, ms)
    ensures Members(a + w + "," + x + e, [m] + ms)
  {
    hide White, MemberText;
    var t, i, j := a + w + "," + x + e, |a|, |a| + |w|;
    var k := j + 1 + |x|;
    assert t[..i] == a && t[i..j] == w && t[j] == ',' && t[j + 1..k] == x && t[k..] == e;
    SomeMembers(e, ms);
    assert ([m] + ms)[1..] == ms;
    assert MoreMembersAt(t, [m] + ms, i, j, k);
  }

  lemma OneMember(body: string, key: string, w: string, x: string, a: string, v: Json)
    requires Spells(body, key) && White(w) && White(x) && Value(a, v)
    ensures MemberText("\"" + body + "\"" + w + ":" + x + a, Member(key, v))
  {
    hide White, Spells, Value;
    var t, i := "\"" + body + "\"" + w + ":" + x + a, |body| + 2;
    var j := i + |w|;
    var k := j + 1 + |x|;
    assert t[1..i - 1] == body && t[i - 1] == '"' && t[i..j] == w && t[j] == ':' && t[j + 1..k] == x && t[k..] == a;
    assert MemberAt(t, Member(key, v), i, j, k);
  }

  // ------------------------------------------------------------------ what is read is in the grammar

  lemma WordRead(s: string, v: Json, rest: string) returns (t: string)
    requires ParseValue(s) == Read(v, rest) && s[0] != '"' && s[0] != '[' && s[0] != '{'
    ensures s == t + rest && Value(t, v)
  {
    hide ParseNumber, Number;
    t := s[..|s| - |rest|];
    if !("null" <= s) && !("true" <= s) && !("false" <= s) {
      NumberIsInt(s);
      NumberRead(s, v.number, rest);
    }
  }

  /** What the parser takes for a value is one. */
  lemma {:induction false} ValueRead(s: string, v: Json, rest: string) returns (t: string)
    requires ParseValue(s) == Read(v, rest)
    ensures s == t + rest && Value(t, v)
    decreases |s|, 0, 1
  {
    hide Value, ParseItems, ParseMembers, ParseText, ParseNumber, Collapse, SkipSpace, White, Spells;
    if s[0] == '"' {
      var body := TextRead(s[1..], v.text, rest);
      LiteralText(body, v.text);
      t := "\"" + body + "\"";
      assert s == [s[0]] + s[1..];
    } else if s[0] == '[' {
      t := ArrayRead(s, v, rest);
    } else if s[0] == '{' {
      t := ObjectRead(s, v, rest);
    } else {
      t := WordRead(s, v, rest);
    }
  }

  lemma {:induction false} ArrayRead(s: string, v: Json, rest: string) returns (t: string)
    requires ParseValue(s) == Read(v, rest) && s[0] == '['
    ensures s == t + rest && Value(t, v)
    decreases |s|, 0, 0
  {
    hide Value, Elements, ParseItems, ParseMembers, SkipSpace, White;
    var r := SkipSpace(s[1..]);
    var w := SpaceRead(s[1..]);
    assert s == "[" + w + r;
    if r != "" && r[0] == ']' {
      NoElements(w);
      t := "[" + w + "]";
      assert r == "]" + r[1..];
    } else {
      var e := ItemsRead(r, v.items, rest);
      ArrayText(w, e, v.items);
      t := "[" + w + e;
    }
  }

  lemma {:induction false} ObjectRead(s: string, v: Json, rest: string) returns (t: string)
    requires ParseValue(s) == Read(v, rest) && s[0] == '{'
    ensures s == t + rest && Value(t, v)
    decreases |s|, 0, 0
  {
    hide Value, Members, ParseItems, ParseMembers, SkipSpace, White, Collapse;
    var r := SkipSpace(s[1..]);
    var w := SpaceRead(s[1..]);
    assert s == "{" + w + r;
    if r != "" && r[0] == '}' {
      NoMembers(w);
      t := "{" + w + "}";
      assert r == "}" + r[1..];
    } else {
      var raw := ParseMembers(r).value;
      var e := MembersRead(r, raw, rest);
      ObjectText(w, e, raw);
      t := "{" + w + e;
    }
  }

  lemma PartsJoin(s: string, a: string, tail: string, w: string, r: string, x: string, q: string, e: string,
                  rest: string)
    requires s == a + tail && tail == w + r && r != "" && r[1..] == x + q && q == e + rest
    ensures s == (a + w + [r[0]] + x + e) + rest
  {
    assert r == [r[0]] + r[1..];
  }

  lemma LastJoins(s: string, a: string, tail: string, w: string, r: string)
    requires s == a + tail && tail == w + r && r != ""
    ensures s == (a + w + [r[0]]) + r[1..]
  {
  }

  lemma {:induction false} ItemsRead(s: string, items: seq<Json>, rest: string) returns (e: string)
    requires ParseItems(s) == Read(items, rest)
    ensures s == e + rest && Elements(e, items)
    decreases |s|, 1
  {
    hide Value, Elements, ParseValue, White;
    var v, tail := ParseValue(s).value, ParseValue(s).rest;
    var a := ValueRead(s, v, tail);
    var w := SpaceRead(tail);
    var r := SkipSpace(tail);
    if r[0] == ']' {
      LastElement(a, v, w);
      e := a + w + "]";
      LastJoins(s, a, tail, w, r);
    } else {
      var x := SpaceRead(r[1..]);
      var more := ItemsRead(SkipSpace(r[1..]), items[1..], rest);
      MoreElements(a, v, w, x, more, items[1..]);
      e := a + w + "," + x + more;
      PartsJoin(s, a, tail, w, r, x, SkipSpace(r[1..]), more, rest);
      assert items == [v] + items[1..];
    }
  }

  lemma MemberJoins(s: string, body: string, tail: string, w: string, r: string, x: string, q: string, a: string,
                    rest: string)
    requires s != "" && s[0] == '"' && s[1..] == body + "\"" + tail && tail == w + r
    requires r != "" && r[0] == ':' && r[1..] == x + q && q == a + rest
    ensures s == "\"" + body + "\"" + w + ":" + x + a + rest
  {
    assert s == "\"" + s[1..] && r == ":" + r[1..];
  }

  lemma {:induction false} MemberRead(s: string, m: Member, rest: string) returns (t: string)
    requires ParseMember(s) == Read(m, rest)
    ensures s == t + rest && MemberText(t, m)
    decreases |s|, 1
  {
    hide Value, ParseValue, ParseText, White, Spells, MemberText;
    var tail := ParseText(s[1..]).rest;
    var body := TextRead(s[1..], m.key, tail);
    var w := SpaceRead(tail);
    var r := SkipSpace(tail);
    var x := SpaceRead(r[1..]);
    var a := ValueRead(SkipSpace(r[1..]), m.value, rest);
    OneMember(body, m.key, w, x, a, m.value);
    t := "\"" + body + "\"" + w + ":" + x + a;
    MemberJoins(s, body, tail, w, r, x, SkipSpace(r[1..]), a, rest);
  }

  lemma {:induction false} MembersRead(s: string, ms: seq<Member>, rest: string) returns (e: string)
    requires ParseMembers(s) == Read(ms, rest)
    ensures s == e + rest && Members(e, ms)
    decreases |s|, 2
  {
    hide MemberText, Members, ParseMember, White;
    var m, tail := ParseMember(s).value, ParseMember(s).rest;
    var a := MemberRead(s, m, tail);
    var w := SpaceRead(tail);
    var r := SkipSpace(tail);
    if r[0] == '}' {
      LastMember(a, m, w);
      e := a + w + "}";
      LastJoins(s, a, tail, w, r);
    } else {
      var x := SpaceRead(r[1..]);
      var more := MembersRead(SkipSpace(r[1..]), ms[1..], rest);
      MoreMembers(a, m, w, x, more, ms[1..]);
      e := a + w + "," + x + more;
      PartsJoin(s, a, tail, w, r, x, SkipSpace(r[1..]), more, rest);
      assert ms == [m] + ms[1..];
    }
  }

  // ------------------------------------------------------------------ what is in the grammar is read

  lemma ArraySplit(t: string, items: seq<Json>) returns (w: string, e: string)
    requires Value(t, Arr(items))
    ensures t == "[" + w + e && White(w) && (if items == [] then e == "]" else Elements(e, items))
  {
    hide White, Elements;
    var k: nat :| 1 <= k <= |t| && White(t[1..k]) && if items == [] then t[k..] == "]" else Elements(t[k..], items);
    w, e := t[1..k], t[k..];
  }

  lemma ObjectSplit(t: string, ms: seq<Member>) returns (w: string, raw: seq<Member>, e: string)
    requires Value(t, Obj(ms))
    ensures t == "{" + w + e && White(w) && ms == Collapse(raw)
    ensures if raw == [] then e == "}" else Members(e, raw)
  {
    hide White, Members, Collapse;
    var k: nat, r: seq<Member> :| 1 <= k <= |t| && White(t[1..k]) && ms == Collapse(r)
      && if r == [] then t[k..] == "}" else Members(t[k..], r);
    w, raw, e := t[1..k], r, t[k..];
  }

  lemma FourSlices(e: string, i: nat, j: nat, k: nat)
    requires i <= j < k <= |e|
    ensures e == e[..i] + e[i..j] + [e[j]] + e[j + 1..k] + e[k..]
  {
    assert e[i..] == e[i..j] + e[j..];
    assert e[j..] == [e[j]] + e[j + 1..];
    assert e[j + 1..] == e[j + 1..k] + e[k..];
  }

  lemma MemberSlices(t: string, i: nat, j: nat, k: nat)
    requires 2 <= i <= j < k <= |t|
    ensures t == [t[0]] + t[1..i - 1] + [t[i - 1]] + t[i..j] + [t[j]] + t[j + 1..k] + t[k..]
  {
    FourSlices(t, i, j, k);
    assert t[..i] == [t[0]] + t[1..i - 1] + [t[i - 1]];
  }

  lemma LastElementSplit(e: string, v: Json) returns (a: string, w: string)
    requires Elements(e, [v])
    ensures Value(a, v) && White(w) && e == a + w + "]" && |a| < |e|
  {
    hide White, Value;
    var i: nat, j: nat :| LastAt(e, [v][0], i, j);
    a, w := e[..i], e[i..j];
    assert e == a + w + e[j..];
  }

  lemma MoreElementsSplit(e: string, items: seq<Json>) returns (a: string, w: string, x: string, more: string)
    requires Elements(e, items) && |items| > 1
    ensures Value(a, items[0]) && White(w) && White(x) && Elements(more, items[1..]) && |a| < |e| && |more| < |e|
    ensures e == a + w + "," + x + more
  {
    hide White, Value;
    var i: nat, j: nat, k: nat :| MoreAt(e, items, i, j, k);
    a, w, x, more := e[..i], e[i..j], e[j + 1..k], e[k..];
    FourSlices(e, i, j, k);
  }

  lemma LastMemberSplit(e: string, m: Member) returns (a: string, w: string)
    requires Members(e, [m])
    ensures MemberText(a, m) && White(w) && e == a + w + "}" && |a| < |e|
  {
    hide White, MemberText;
    var i: nat, j: nat :| LastMemberAt(e, [m][0], i, j);
    a, w := e[..i], e[i..j];
    assert e == a + w + e[j..];
  }

  lemma MoreMembersSplit(e: string, ms: seq<Member>) returns (a: string, w: string, x: string, more: string)
    requires Members(e, ms) && |ms| > 1
    ensures MemberText(a, ms[0]) && White(w) && White(x) && Members(more, ms[1..]) && |a| < |e| && |more| < |e|
    ensures e == a + w + "," + x + more
  {
    hide White, MemberText;
    var i: nat, j: nat, k: nat :| MoreMembersAt(e, ms, i, j, k);
    a, w, x, more := e[..i], e[i..j], e[j + 1..k], e[k..];
    FourSlices(e, i, j, k);
  }

  lemma MemberSplit(t: string, m: Member) returns (body: string, w: string, x: string, a: string)
    requires MemberText(t, m)
    ensures t == "\"" + body + "\"" + w + ":" + x + a
    ensures Spells(body, m.key) && White(w) && White(x) && Value(a, m.value) && |a| < |t|
  {
    hide White, Value, Spells;
    var i: nat, j: nat, k: nat :| MemberAt(t, m, i, j, k);
    body, w, x, a := t[1..i - 1], t[i..j], t[j + 1..k], t[k..];
    MemberSlices(t, i, j, k);
  }

  lemma LiteralSplit(t: string, s: string) returns (body: string)
    requires Value(t, Str(s))
    ensures t == "\"" + body + "\"" && Spells(body, s)
  {
    hide Spells;
    body := t[1..|t| - 1];
    assert t == [t[0]] + body + [t[|t| - 1]];
  }

  /** How a value begins. */
  lemma ValueHead(t: string, v: Json)
    requires Value(t, v)
    ensures t != "" && !IsJsonSpace(t[0]) && t[0] != ']' && t[0] != '}'
  {
    hide Spells, White, Elements, Members, Collapse, NatValue;
  }

  lemma ApartAfter(w: string, c: char, rest: string)
    requires White(w) && (c == ',' || c == ']' || c == '}')
    ensures Apart(w + ([c] + rest))
  {
    if w != "" { assert (w + ([c] + rest))[0] == w[0]; }
  }

  lemma Regroup(a: string, w: string, c: char, x: string, more: string, rest: string)
    ensures a + w + [c] + x + more + rest == a + (w + ([c] + (x + (more + rest))))
    ensures a + w + [c] + rest == a + (w + ([c] + rest))
  {
  }

  /** A value of the grammar is read, whatever follows that could not belong to a number. */
  lemma {:induction false} ValueTaken(t: string, v: Json, rest: string)
    requires Value(t, v) && Apart(rest)
    ensures ParseValue(t + rest) == Read(v, rest)
    decreases |t|, 0, 1
  {
    hide Value, Spells, White, Elements, Members, ParseItems, ParseMembers, ParseText, Collapse, SkipSpace;
    match v
    case Arr(items) => ArrayTaken(t, items, rest);
    case Obj(ms) => ObjectTaken(t, ms, rest);
    case Str(s) =>
      var body := LiteralSplit(t, s);
      TextTaken(body, s, rest);
      assert (t + rest)[1..] == body + "\"" + rest;
    case _ => WordTaken(t, v, rest);
  }

  lemma WordTaken(t: string, v: Json, rest: string)
    requires Value(t, v) && Apart(rest) && !v.Arr? && !v.Obj? && !v.Str?
    ensures ParseValue(t + rest) == Read(v, rest)
  {
    hide ParseNumber, Number;
    var s := t + rest;
    if v.Int? {
      NumberTaken(t, v.number, rest);
      assert s[0] == t[0];
      assert "null"[0] == 'n' && "true"[0] == 't' && "false"[0] == 'f';
    } else {
      assert s[|t|..] == rest && s[..|t|] == t && s[0] == t[0];
    }
  }

  lemma {:induction false} ArrayTaken(t: string, items: seq<Json>, rest: string)
    requires Value(t, Arr(items)) && Apart(rest)
    ensures ParseValue(t + rest) == Read(Arr(items), rest)
    decreases |t|, 0, 0
  {
    hide Value, White, Elements, ParseItems, ParseMembers, SkipSpace;
    var w, e := ArraySplit(t, items);
    var s := t + rest;
    assert s[1..] == w + (e + rest);
    if items == [] {
      SpaceTaken(w, e + rest);
      assert (e + rest)[1..] == rest;
    } else {
      ElementsHead(e, items);
      SpaceTaken(w, e + rest);
      ItemsTaken(e, items, rest);
    }
  }

  lemma ElementsHead(e: string, items: seq<Json>)
    requires Elements(e, items)
    ensures e != "" && !IsJsonSpace(e[0]) && e[0] != ']'
  {
    hide Value, White;
    SomeElements(e, items);
    if |items| == 1 {
      assert items == [items[0]];
      var a, w := LastElementSplit(e, items[0]);
      ValueHead(a, items[0]);
    } else {
      var a, w, x, more := MoreElementsSplit(e, items);
      ValueHead(a, items[0]);
    }
  }

  lemma {:induction false} ItemsTaken(e: string, items: seq<Json>, rest: string)
    requires Elements(e, items)
    ensures ParseItems(e + rest) == Read(items, rest)
    decreases |e|, 1, 0
  {
    hide Value, White, Elements, ParseValue, SkipSpace, Apart;
    SomeElements(e, items);
    if |items| == 1 {
      assert items == [items[0]];
      var a, w := LastElementSplit(e, items[0]);
      ApartAfter(w, ']', rest);
      var tail := w + ("]" + rest);
      ValueTaken(a, items[0], tail);
      Regroup(a, w, ']', "", "", rest);
      SpaceTaken(w, "]" + rest);
      assert ("]" + rest)[1..] == rest;
    } else {
      var a, w, x, more := MoreElementsSplit(e, items);
      var tail := w + ("," + (x + (more + rest)));
      ApartAfter(w, ',', x + (more + rest));
      ValueTaken(a, items[0], tail);
      Regroup(a, w, ',', x, more, rest);
      SpaceTaken(w, "," + (x + (more + rest)));
      assert ("," + (x + (more + rest)))[1..] == x + (more + rest);
      ElementsHead(more, items[1..]);
      SpaceTaken(x, more + rest);
      ItemsTaken(more, items[1..], rest);
      assert items == [items[0]] + items[1..];
    }
  }

  lemma {:induction false} ObjectTaken(t: string, ms: seq<Member>, rest: string)
    requires Value(t, Obj(ms)) && Apart(rest)
    ensures ParseValue(t + rest) == Read(Obj(ms), rest)
    decreases |t|, 0, 0
  {
    hide Value, White, Members, ParseItems, ParseMembers, SkipSpace, Collapse;
    var w, raw, e := ObjectSplit(t, ms);
    var s := t + rest;
    assert s[1..] == w + (e + rest);
    if raw == [] {
      NothingCollapsed();
      SpaceTaken(w, e + rest);
      assert (e + rest)[1..] == rest;
    } else {
      MembersHead(e, raw);
      SpaceTaken(w, e + rest);
      MembersTaken(e, raw, rest);
    }
  }

  lemma NothingCollapsed()
    ensures Collapse([]) == []
  {
  }

  lemma MemberHead(t: string, m: Member)
    requires MemberText(t, m)
    ensures t != "" && t[0] == '"'
  {
    hide Value, White, Spells;
  }

  lemma MembersHead(e: string, ms: seq<Member>)
    requires Members(e, ms)
    ensures e != "" && e[0] == '"'
  {
    hide MemberText, White;
    SomeMembers(e, ms);
    if |ms| == 1 {
      assert ms == [ms[0]];
      var a, w := LastMemberSplit(e, ms[0]);
      MemberHead(a, ms[0]);
    } else {
      var a, w, x, more := MoreMembersSplit(e, ms);
      MemberHead(a, ms[0]);
    }
  }

  lemma {:induction false} MemberTaken(t: string, m: Member, rest: string)
    requires MemberText(t, m) && Apart(rest)
    ensures ParseMember(t + rest) == Read(m, rest)
    decreases |t|, 1, 0
  {
    hide Value, White, Spells, MemberText, ParseValue, ParseText, SkipSpace, Apart;
    var body, w, x, a := MemberSplit(t, m);
    var s := t + rest;
    var tail := w + (":" + (x + (a + rest)));
    TextTaken(body, m.key, tail);
    assert s[1..] == body + "\"" + tail;
    SpaceTaken(w, ":" + (x + (a + rest)));
    assert (":" + (x + (a + rest)))[1..] == x + (a + rest);
    ValueHead(a, m.value);
    SpaceTaken(x, a + rest);
    ValueTaken(a, m.value, rest);
  }

  lemma {:induction false} MembersTaken(e: string, ms: seq<Member>, rest: string)
    requires Members(e, ms)
    ensures ParseMembers(e + rest) == Read(ms, rest)
    decreases |e|, 2, 0
  {
    hide MemberText, White, Members, ParseMember, SkipSpace, Apart;
    SomeMembers(e, ms);
    if |ms| == 1 {
      assert ms == [ms[0]];
      var a, w := LastMemberSplit(e, ms[0]);
      ApartAfter(w, '}', rest);
      var tail := w + ("}" + rest);
      MemberTaken(a, ms[0], tail);
      Regroup(a, w, '}', "", "", rest);
      SpaceTaken(w, "}" + rest);
      assert ("}" + rest)[1..] == rest;
    } else {
      var a, w, x, more := MoreMembersSplit(e, ms);
      var tail := w + ("," + (x + (more + rest)));
      ApartAfter(w, ',', x + (more + rest));
      MemberTaken(a, ms[0], tail);
      Regroup(a, w, ',', x, more, rest);
      SpaceTaken(w, "," + (x + (more + rest)));
      assert ("," + (x + (more + rest)))[1..] == x + (more + rest);
      MembersHead(more, ms[1..]);
      SpaceTaken(x, more + rest);
      MembersTaken(more, ms[1..], rest);
      assert ms == [ms[0]] + ms[1..];
    }
  }

  // ------------------------------------------------------------------ json.loads

  /** The text is a value of the grammar with white space around it. */
  ghost predicate Document(s: string, v: Json) {
    exists w: string, t: string, x: string :: s == w + t + x && White(w) && Value(t, v) && White(x)
  }

  lemma AllWhiteSkipped(x: string)
    requires White(x)
    ensures SkipSpace(x) == ""
  {
    SpaceTaken(x, "");
    assert x + "" == x;
  }

  lemma ApartFromWhite(x: string)
    requires White(x)
    ensures Apart(x)
  {
  }

  /** json.loads reads exactly the documents of the grammar, each as the value it denotes. */
  lemma LoadsExactly(s: string, v: Json)
    ensures Loads(s) == Some(v) <==> Document(s, v)
  {
    hide Value, White, ParseValue, SkipSpace, Apart;
    if Loads(s) == Some(v) {
      var w := SpaceRead(s);
      var rest := ParseValue(SkipSpace(s)).rest;
      var t := ValueRead(SkipSpace(s), v, rest);
      var x := SpaceRead(rest);
      assert rest == x && s == w + t + x;
    }
    if Document(s, v) {
      var w: string, t: string, x: string :| s == w + t + x && White(w) && Value(t, v) && White(x);
      ValueHead(t, v);
      SpaceTaken(w, t + x);
      assert s == w + (t + x);
      ApartFromWhite(x);
      ValueTaken(t, v, x);
      AllWhiteSkipped(x);
    }
  }
}
