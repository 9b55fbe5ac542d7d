/** Global search (`search_like_pattern`, src/logic.rs; `search`, src/db/search.rs):
    the query is trimmed, its wildcards escaped, and the result matched with
    PostgreSQL's ILIKE .. ESCAPE '\' (manual, section 9.7.1). */
module SearchPattern {
  import opened Wrappers

  /** Unicode's White_Space property, which `str::trim` removes. */
  predicate IsSpace(c: char) {
    || '\U{0009}' <= c <= '\U{000D}'
    || c in {' ', '\U{0085}', '\U{00A0}', '\U{1680}', '\U{2028}', '\U{2029}', '\U{202F}', '\U{205F}', '\U{3000}'}
    || '\U{2000}' <= c <= '\U{200A}'
  }

  /** The characters with that property, by code point. */
  lemma SpacesByCodePoint(c: char)
    ensures IsSpace(c) <==>
              || c as int in {0x9, 0xA, 0xB, 0xC, 0xD, 0x20, 0x85, 0xA0, 0x1680, 0x2028, 0x2029, 0x202F, 0x205F, 0x3000}
              || c as int in {0x2000, 0x2001, 0x2002, 0x2003, 0x2004, 0x2005, 0x2006, 0x2007, 0x2008, 0x2009, 0x200A}
  {
  }

  function TrimStart(s: string): string {
    if s != [] && IsSpace(s[0]) then TrimStart(s[1..]) else s
  }

  function TrimEnd(s: string): string {
    if s != [] && IsSpace(s[|s| - 1]) then TrimEnd(s[..|s| - 1]) else s
  }

  function Trim(s: string): string { TrimEnd(TrimStart(s)) }

  /** `str::len` counts UTF-8 bytes. */
  function Utf8Len(s: string): nat {
    if s == [] then 0
    else
      Utf8Len(s[1..])
      + if s[0] < '\U{0080}' then 1 else if s[0] < '\U{0800}' then 2 else if s[0] < '\U{10000}' then 3 else 4
  }

  /** `str::replace` of a single character. */
  function Replace(s: string, c: char, with: string): string {
    if s == [] then [] else (if s[0] == c then with else [s[0]]) + Replace(s[1..], c, with)
  }

  function Escaped(s: string): string {
    Replace(Replace(Replace(s, '\\', "\\\\"), '%', "\\%"), '_', "\\_")
  }

  function SearchLikePattern(raw: string): Option<string> {
    var trimmed := Trim(raw);
    if Utf8Len(trimmed) < 2 then None else Some("%" + Escaped(trimmed) + "%")
  }

  /** A pattern is given for every query but those that trim to nothing or to a single
      ASCII character. */
  lemma PatternGivenExactly(raw: string)
    ensures SearchLikePattern(raw).None? <==> Trim(raw) == "" || (|Trim(raw)| == 1 && Trim(raw)[0] < '\U{0080}')
  {
    hide Trim;
    Utf8Short(Trim(raw));
  }

  lemma Utf8Short(s: string)
    ensures Utf8Len(s) < 2 <==> s == "" || (|s| == 1 && s[0] < '\U{0080}')
  {
    if |s| >= 2 {
      assert Utf8Len(s[1..]) >= 1;
    } else if |s| == 1 {
      assert s[1..] == "" && Utf8Len(s[1..]) == 0;
    }
  }

  // ---- the reader: ILIKE ----

  /** How ILIKE compares single characters: by their folds. */
  type Folding = char -> char

  /** Does `text` match `pattern`? A pattern that ends in a lone escape character
      is an error in PostgreSQL; here it matches nothing. */
  predicate Like(fold: Folding, text: string, pattern: string)
    decreases |pattern|, |text|
  {
    if pattern == [] then text == []
    else if pattern[0] == '%' then
      Like(fold, text, pattern[1..]) || (text != [] && Like(fold, text[1..], pattern))
    else if pattern[0] == '_' then text != [] && Like(fold, text[1..], pattern[1..])
    else if pattern[0] == '\\' then
      |pattern| > 1 && text != [] && fold(text[0]) == fold(pattern[1]) && Like(fold, text[1..], pattern[2..])
    else text != [] && fold(text[0]) == fold(pattern[0]) && Like(fold, text[1..], pattern[1..])
  }

  /** The pattern is not cut off inside an escape. */
  predicate WellEscaped(pattern: string) {
    if pattern == [] then true
    else if pattern[0] == '\\' then |pattern| > 1 && WellEscaped(pattern[2..])
    else WellEscaped(pattern[1..])
  }

  predicate SameFolded(fold: Folding, a: string, b: string) {
    |a| == |b| && forall i :: 0 <= i < |a| ==> fold(a[i]) == fold(b[i])
  }

  /** `text` holds `part` somewhere, up to folding. */
  ghost predicate Holds(fold: Folding, text: string, part: string) {
    exists i: nat :: HoldsAt(fold, text, part, i)
  }

  predicate HoldsAt(fold: Folding, text: string, part: string, i: nat) {
    i + |part| <= |text| && SameFolded(fold, text[i..i + |part|], part)
  }

  // ---- escaping ----

  predicate IsWild(c: char) { c == '\\' || c == '%' || c == '_' }

  /** One pass: a backslash before each character that would be special. */
  function EscapeOnce(s: string): string {
    if s == [] then [] else (if IsWild(s[0]) then ['\\', s[0]] else [s[0]]) + EscapeOnce(s[1..])
  }

  function Unescape(s: string): string {
    if s == [] then []
    else if s[0] == '\\' && |s| > 1 then [s[1]] + Unescape(s[2..])
    else [s[0]] + Unescape(s[1..])
  }

  lemma {:induction false} ReplaceAppend(a: string, b: string, c: char, with: string)
    ensures Replace(a + b, c, with) == Replace(a, c, with) + Replace(b, c, with)
  {
    if a == [] {
      assert a + b == b;
    } else {
      assert (a + b)[1..] == a[1..] + b;
      ReplaceAppend(a[1..], b, c, with);
    }
  }

  lemma ReplaceShort(c: char, d: char, e: char, with: string)
    ensures Replace([d], c, with) == if d == c then with else [d]
    ensures d != c && e != c ==> Replace([d, e], c, with) == [d, e]
  {
    assert [d][1..] == [] && [d, e][1..] == [e] && [e][1..] == [];
    assert Replace([], c, with) == [];
    assert Replace([e], c, with) == if e == c then with + [] else [e] + [];
  }

  /** The three successive replacements do not disturb each other's output: they
      amount to the single pass. */
  lemma {:induction false} ThreePassesAreOne(s: string)
    ensures Escaped(s) == EscapeOnce(s)
  {
    if s != [] {
      var c, rest := s[0], s[1..];
      ThreePassesAreOne(rest);
      var once := Replace(rest, '\\', "\\\\");
      var twice := Replace(once, '%', "\\%");
      var head := if c == '\\' then "\\\\" else [c];
      var head' := Replace(head, '%', "\\%");
      ReplaceAppend(head, once, '%', "\\%");
      ReplaceAppend(head', twice, '_', "\\_");
      ReplaceShort('%', head[0], head[|head| - 1], "\\%");
      ReplaceShort('_', head'[0], head'[|head'| - 1], "\\_");
      assert Replace(head', '_', "\\_") == if IsWild(c) then ['\\', c] else [c];
    }
  }

  /** Escaping can be undone, so no two queries share a pattern. */
  lemma EscapeRoundTrips(s: string)
    ensures Unescape(Escaped(s)) == s
  {
    ThreePassesAreOne(s);
    UnescapeOnce(s);
  }

  lemma {:induction false} UnescapeOnce(s: string)
    ensures Unescape(EscapeOnce(s)) == s
  {
    if s != [] {
      UnescapeOnce(s[1..]);
      var e := EscapeOnce(s);
      if IsWild(s[0]) {
        assert e[2..] == EscapeOnce(s[1..]);
      } else {
        assert e[1..] == EscapeOnce(s[1..]);
      }
    }
  }

  // ---- what the pattern matches ----

  lemma {:induction false} PercentMatchesAll(fold: Folding, text: string)
    ensures Like(fold, text, "%")
  {
    assert "%"[1..] == [];
    if text != [] {
      PercentMatchesAll(fold, text[1..]);
    }
  }

  /** Escaped text matches itself, up to folding, and nothing else. */
  lemma {:induction false} EscapedIsLiteral(fold: Folding, text: string, s: string)
    ensures Like(fold, text, EscapeOnce(s) + "%") <==> HoldsAt(fold, text, s, 0)
    ensures WellEscaped(EscapeOnce(s) + "%")
  {
    var pattern := EscapeOnce(s) + "%";
    if s == [] {
      assert pattern == "%" && "%"[1..] == [];
      PercentMatchesAll(fold, text);
    } else {
      var rest := EscapeOnce(s[1..]) + "%";
      if IsWild(s[0]) {
        assert pattern[2..] == rest && pattern[0] == '\\' && pattern[1] == s[0];
      } else {
        assert pattern[1..] == rest && pattern[0] == s[0];
      }
      if text == [] {
        EscapedIsLiteral(fold, text, s[1..]);
      } else {
        EscapedIsLiteral(fold, text[1..], s[1..]);
        HoldsAtStart(fold, text, s);
      }
    }
  }

  lemma HoldsAtStart(fold: Folding, text: string, s: string)
    requires text != [] && s != []
    ensures HoldsAt(fold, text, s, 0) <==> fold(text[0]) == fold(s[0]) && HoldsAt(fold, text[1..], s[1..], 0)
  {
    if |s| <= |text| {
      var here, later := text[0..|s|], text[1..][0..|s| - 1];
      assert here[0] == text[0];
      assert forall i :: 0 <= i < |s| - 1 ==> later[i] == here[i + 1] && s[1..][i] == s[i + 1];
      if fold(text[0]) == fold(s[0]) && SameFolded(fold, later, s[1..]) {
        forall i | 0 <= i < |s|
          ensures fold(here[i]) == fold(s[i])
        {
          if i > 0 {
            assert fold(later[i - 1]) == fold(s[1..][i - 1]);
          }
        }
      }
    }
  }

  /** A leading percent sign tries every starting point. */
  lemma {:induction false} LeadingPercent(fold: Folding, text: string, rest: string)
    ensures Like(fold, text, "%" + rest) <==> exists i: nat :: LikeFrom(fold, text, rest, i)
  {
    var pattern := "%" + rest;
    assert pattern[1..] == rest;
    assert Like(fold, text, rest) <==> LikeFrom(fold, text, rest, 0) by {
      assert text[0..] == text;
    }
    if text != [] {
      LeadingPercent(fold, text[1..], rest);
      assert forall i: nat :: i < |text| ==> text[1..][i..] == text[i + 1..];
      forall i: nat
        ensures i > 0 ==> (LikeFrom(fold, text, rest, i) <==> LikeFrom(fold, text[1..], rest, i - 1))
      {
        if 0 < i <= |text| {
          assert text[i..] == text[1..][i - 1..];
        }
      }
      if exists i: nat :: LikeFrom(fold, text[1..], rest, i) {
        var i: nat :| LikeFrom(fold, text[1..], rest, i);
        assert LikeFrom(fold, text, rest, i + 1);
      }
    }
  }

  predicate LikeFrom(fold: Folding, text: string, pattern: string, i: nat) {
    i <= |text| && Like(fold, text[i..], pattern)
  }

  /** For every query, text and folding: the pattern is well formed, and matches
      exactly the texts that hold the trimmed query as a substring. */
  lemma SearchFindsSubstrings(fold: Folding, raw: string, text: string)
    requires SearchLikePattern(raw).Some?
    ensures var pattern := SearchLikePattern(raw).value;
            WellEscaped(pattern) && (Like(fold, text, pattern) <==> Holds(fold, text, Trim(raw)))
  {
    hide Trim, Escaped, EscapeOnce, Like, Utf8Len;
    var part := Trim(raw);
    var rest := EscapeOnce(part) + "%";
    ThreePassesAreOne(part);
    assert SearchLikePattern(raw).value == "%" + rest;
    assert ("%" + rest)[1..] == rest;
    EscapedIsLiteral(fold, text, part);
    LeadingPercent(fold, text, rest);
    forall i: nat | i <= |text|
      ensures LikeFrom(fold, text, rest, i) <==> HoldsAt(fold, text, part, i)
    {
      EscapedIsLiteral(fold, text[i..], part);
      assert i + |part| <= |text| ==> text[i..][0..|part|] == text[i..i + |part|];
    }
  }

  ghost predicate AllSpace(s: string) { forall c :: c in s ==> IsSpace(c) }

  lemma {:induction false} TrimStartSplits(s: string) returns (before: string)
    ensures s == before + TrimStart(s) && AllSpace(before)
    ensures TrimStart(s) == [] || !IsSpace(TrimStart(s)[0])
  {
    before := [];
    if s != [] && IsSpace(s[0]) {
      before := TrimStartSplits(s[1..]);
      before := [s[0]] + before;
    }
  }

  lemma {:induction false} TrimEndSplits(s: string) returns (after: string)
    ensures s == TrimEnd(s) + after && AllSpace(after)
    ensures TrimEnd(s) == [] || !IsSpace(TrimEnd(s)[|TrimEnd(s)| - 1])
  {
    after := [];
    if s != [] && IsSpace(s[|s| - 1]) {
      after := TrimEndSplits(s[..|s| - 1]);
      after := after + [s[|s| - 1]];
    }
  }

  /** Trimming removes exactly the white space at both ends. */
  lemma TrimSplits(s: string) returns (before: string, after: string)
    ensures s == before + Trim(s) + after && AllSpace(before) && AllSpace(after)
    ensures Trim(s) != [] ==> !IsSpace(Trim(s)[0]) && !IsSpace(Trim(s)[|Trim(s)| - 1])
  {
    before := TrimStartSplits(s);
    after := TrimEndSplits(TrimStart(s));
    assert TrimStart(s) == Trim(s) + after;
    assert Trim(s) != [] ==> Trim(s)[0] == TrimStart(s)[0];
  }
}
