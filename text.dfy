/**
 * The string primitives the wizard's parsers are built from, with the
 * semantics of their JavaScript counterparts: `String.prototype.trim`,
 * `String.prototype.split` with a one-character separator (or a regular
 * expression that matches exactly one character of a class, such as `/\t|;/`)
 * and `Array.prototype.join`.
 */
module Text {

  /** The code points `trim` removes: ECMAScript WhiteSpace and LineTerminator. */
  predicate IsWhitespace(c: char) {
    || c == '\t' || c == '\n' || c == '\U{B}' || c == '\U{C}' || c == '\r' || c == ' '
    || c == '\U{A0}' || c == '\U{1680}' || ('\U{2000}' <= c <= '\U{200A}')
    || c == '\U{2028}' || c == '\U{2029}' || c == '\U{202F}' || c == '\U{205F}'
    || c == '\U{3000}' || c == '\U{FEFF}'
  }

  /** A string that `trim` turns into the empty string. */
  predicate IsBlank(s: string) {
    forall i :: 0 <= i < |s| ==> IsWhitespace(s[i])
  }

  /** Leading whitespace removed. */
  function TrimStart(s: string): (r: string)
    ensures |r| <= |s| && r == s[|s| - |r|..]
    ensures forall i :: 0 <= i < |s| - |r| ==> IsWhitespace(s[i])
    ensures r == [] || !IsWhitespace(r[0])
  {
    if s != [] && IsWhitespace(s[0]) then TrimStart(s[1..]) else s
  }

  /** Trailing whitespace removed. */
  function TrimEnd(s: string): (r: string)
    ensures |r| <= |s| && r == s[..|r|]
    ensures forall i :: |r| <= i < |s| ==> IsWhitespace(s[i])
    ensures r == [] || !IsWhitespace(r[|r| - 1])
  {
    if s != [] && IsWhitespace(s[|s| - 1]) then TrimEnd(s[..|s| - 1]) else s
  }

  /** The number of leading whitespace characters `trim` removes. */
  function TrimOffset(s: string): (k: nat)
    ensures k <= |s|
  {
    |s| - |TrimStart(s)|
  }

  /** `s.trim()`: the longest infix of `s` that neither starts nor ends with whitespace. */
  function Trim(s: string): (r: string)
    ensures TrimOffset(s) + |r| <= |s| && r == s[TrimOffset(s)..TrimOffset(s) + |r|]
    ensures r == [] || (!IsWhitespace(r[0]) && !IsWhitespace(r[|r| - 1]))
    ensures r == [] <==> IsBlank(s)
  {
    var t := TrimStart(s);
    TrimEnd(t)
  }

  /** A string that neither starts nor ends with whitespace. */
  predicate Trimmed(s: string) {
    s == [] || (!IsWhitespace(s[0]) && !IsWhitespace(s[|s| - 1]))
  }

  /** A string whose ends `trim` leaves alone is its own trim. */
  lemma TrimOfTrimmed(s: string)
    requires Trimmed(s)
    ensures Trim(s) == s
  {
  }

  /** What `trim` removes, before and after the result, is whitespace. */
  lemma TrimRemovesWhitespace(s: string)
    ensures forall i :: 0 <= i < TrimOffset(s) ==> IsWhitespace(s[i])
    ensures forall i :: TrimOffset(s) + |Trim(s)| <= i < |s| ==> IsWhitespace(s[i])
  {
    var t := TrimStart(s);
    var r := TrimEnd(t);
    var k := |s| - |t|;
    assert TrimOffset(s) == k && Trim(s) == r && t == s[k..];
    forall i | k + |r| <= i < |s| ensures IsWhitespace(s[i]) {
      assert s[i] == t[i - k] && |r| <= i - k < |t|;
    }
  }

  /** Trimming twice is trimming once. */
  lemma TrimIdempotent(s: string)
    ensures Trim(Trim(s)) == Trim(s)
  {
    TrimOfTrimmed(Trim(s));
  }

  /** No character of `s` belongs to `seps`. */
  predicate NoneIn(s: string, seps: set<char>) {
    forall j :: 0 <= j < |s| ==> s[j] !in seps
  }

  /** No character of any part belongs to `seps`. */
  predicate FreeOf(parts: seq<string>, seps: set<char>) {
    forall i :: 0 <= i < |parts| ==> NoneIn(parts[i], seps)
  }

  /**
   * `s.split(sep)` where `sep` matches any single character of `seps`: the
   * maximal runs of non-separator characters, including the empty runs
   * before, between and after separators; the empty string splits into [""].
   */
  function Split(s: string, seps: set<char>): (parts: seq<string>)
    ensures |parts| >= 1
    ensures FreeOf(parts, seps)
    decreases |s|
  {
    if s == [] then [""]
    else
      var rest := Split(s[1..], seps);
      if s[0] in seps then [""] + rest
      else [[s[0]] + rest[0]] + rest[1..]
  }

  /** A split into a single part is the string itself. */
  lemma {:induction false} SplitSingle(s: string, seps: set<char>)
    requires |Split(s, seps)| == 1
    ensures Split(s, seps) == [s]
    decreases |s|
  {
    if s != [] {
      SplitSingle(s[1..], seps);
      assert [s[0]] + s[1..] == s;
    }
  }

  /** `parts.join(sep)`. */
  function JoinWith(parts: seq<string>, sep: char): string
    decreases |parts|
  {
    if |parts| == 0 then ""
    else if |parts| == 1 then parts[0]
    else parts[0] + [sep] + JoinWith(parts[1..], sep)
  }

  /** The separator characters of `s`, in order: where `split` cuts, and at what. */
  function SeparatorsOf(s: string, seps: set<char>): (cs: seq<char>)
    ensures |cs| == CountOf(s, seps)
    ensures forall i :: 0 <= i < |cs| ==> cs[i] in seps
  {
    if s == [] then [] else (if s[0] in seps then [s[0]] else []) + SeparatorsOf(s[1..], seps)
  }

  /** `parts[0] + cs[0] + parts[1] + cs[1] + … + parts[n]`: a join with a separator of its own at each gap. */
  function JoinAt(parts: seq<string>, cs: seq<char>): string
    requires |parts| == |cs| + 1
    decreases |parts|
  {
    if |parts| == 1 then parts[0] else parts[0] + [cs[0]] + JoinAt(parts[1..], cs[1..])
  }

  /**
   * The parts of a split, joined back with the separators of the input in the
   * order they occur, give the input: every part ends exactly where a
   * separator stands, whichever member of `seps` it is.
   */
  lemma {:induction false} SplitAtSeparators(s: string, seps: set<char>)
    ensures |Split(s, seps)| == |SeparatorsOf(s, seps)| + 1
    ensures JoinAt(Split(s, seps), SeparatorsOf(s, seps)) == s
    decreases |s|
  {
    SplitKeepsCharacters(s, seps);
    if s != [] {
      var rest := Split(s[1..], seps);
      var cs := SeparatorsOf(s[1..], seps);
      SplitAtSeparators(s[1..], seps);
      if s[0] in seps {
        assert Split(s, seps) == [""] + rest && SeparatorsOf(s, seps) == [s[0]] + cs;
        assert ([""] + rest)[1..] == rest && ([s[0]] + cs)[1..] == cs;
        assert [s[0]] + s[1..] == s;
      } else {
        assert Split(s, seps) == [[s[0]] + rest[0]] + rest[1..] && SeparatorsOf(s, seps) == cs;
        JoinAtFirst([s[0]], rest, cs);
        assert [s[0]] + s[1..] == s;
      }
    }
  }

  /** Prefixing the first part prefixes the join. */
  lemma JoinAtFirst(p: string, parts: seq<string>, cs: seq<char>)
    requires |parts| == |cs| + 1
    ensures JoinAt([p + parts[0]] + parts[1..], cs) == p + JoinAt(parts, cs)
  {
    var q := [p + parts[0]] + parts[1..];
    assert q[0] == p + parts[0] && q[1..] == parts[1..];
  }

  /** The characters of `s` that are not separators, in order. */
  function Without(s: string, seps: set<char>): (r: string)
    ensures |r| <= |s|
  {
    if s == [] then "" else (if s[0] in seps then "" else [s[0]]) + Without(s[1..], seps)
  }

  /** The number of separator characters in `s`. */
  function CountOf(s: string, seps: set<char>): nat {
    if s == [] then 0 else (if s[0] in seps then 1 else 0) + CountOf(s[1..], seps)
  }

  /** All parts, concatenated. */
  function Concat(parts: seq<string>): string {
    if parts == [] then "" else parts[0] + Concat(parts[1..])
  }

  lemma ConcatCons(p: string, ps: seq<string>)
    ensures Concat([p] + ps) == p + Concat(ps)
  {
    assert ([p] + ps)[1..] == ps;
  }

  /**
   * Splitting keeps every non-separator character, in order, and makes one
   * more part than there are separators.
   */
  lemma {:induction false} SplitKeepsCharacters(s: string, seps: set<char>)
    ensures Concat(Split(s, seps)) == Without(s, seps)
    ensures |Split(s, seps)| == CountOf(s, seps) + 1
    decreases |s|
  {
    if s != [] {
      SplitKeepsCharacters(s[1..], seps);
      var rest := Split(s[1..], seps);
      if s[0] in seps {
        ConcatCons("", rest);
      } else {
        assert rest == [rest[0]] + rest[1..];
        ConcatCons(rest[0], rest[1..]);
        ConcatCons([s[0]] + rest[0], rest[1..]);
      }
    }
  }

  /** Splitting on a single separator and joining back with it gives the input. */
  lemma {:induction false} JoinSplit(s: string, sep: char)
    ensures JoinWith(Split(s, {sep}), sep) == s
    decreases |s|
  {
    if s != [] {
      JoinSplit(s[1..], sep);
      var rest := Split(s[1..], {sep});
      if s[0] == sep {
        assert ([""] + rest)[1..] == rest;
      } else {
        var parts := [[s[0]] + rest[0]] + rest[1..];
        if |rest| > 1 {
          assert parts[1..] == rest[1..];
        }
      }
    }
  }

  /** A piece with no separator, followed by more text, extends the first part. */
  lemma {:induction false} SplitPrefix(p: string, t: string, seps: set<char>)
    requires NoneIn(p, seps)
    ensures Split(p + t, seps) == [p + Split(t, seps)[0]] + Split(t, seps)[1..]
    decreases |p|
  {
    if p != [] {
      assert (p + t)[1..] == p[1..] + t;
      SplitPrefix(p[1..], t, seps);
      var x := Split(t, seps);
      var rest := Split(p[1..] + t, seps);
      assert rest[0] == p[1..] + x[0] && rest[1..] == x[1..];
      assert (p + t)[0] == p[0];
      assert Split(p + t, seps) == [[p[0]] + rest[0]] + rest[1..];
      assert [p[0]] + (p[1..] + x[0]) == p + x[0];
    } else {
      var x := Split(t, seps);
      assert p + t == t && p + x[0] == x[0];
      assert x == [x[0]] + x[1..];
    }
  }

  /**
   * Joining separator-free parts with a separator and splitting on a set that
   * holds that separator gives the parts back.
   */
  lemma {:induction false} SplitJoin(parts: seq<string>, sep: char, seps: set<char>)
    requires |parts| >= 1 && sep in seps && FreeOf(parts, seps)
    ensures Split(JoinWith(parts, sep), seps) == parts
    decreases |parts|
  {
    var p := parts[0];
    if |parts| == 1 {
      SplitPrefix(p, "", seps);
      assert p + "" == p;
    } else {
      var tail := parts[1..];
      assert FreeOf(tail, seps) by {
        forall i | 0 <= i < |tail| ensures NoneIn(tail[i], seps) {
          assert tail[i] == parts[i + 1];
        }
      }
      SplitJoin(tail, sep, seps);
      var t := [sep] + JoinWith(tail, sep);
      assert JoinWith(parts, sep) == p + t;
      SplitPrefix(p, t, seps);
      assert t[1..] == JoinWith(tail, sep);
      assert Split(t, seps) == [""] + tail;
      assert p + "" == p;
    }
  }

  /** The first part of a split starts with the first character when that is not a separator. */
  lemma SplitFirstCharacter(s: string, seps: set<char>)
    requires s != [] && s[0] !in seps
    ensures |Split(s, seps)[0]| >= 1 && Split(s, seps)[0][0] == s[0]
  {
  }

  /** The first character of a join is that of the first part, when the first part has one. */
  lemma JoinFirst(parts: seq<string>, sep: char)
    requires |parts| >= 1 && |parts[0]| >= 1
    ensures |JoinWith(parts, sep)| >= 1 && JoinWith(parts, sep)[0] == parts[0][0]
  {
  }

  /** The last character of a join is that of the last part, when the last part has one. */
  lemma {:induction false} JoinLast(parts: seq<string>, sep: char)
    requires |parts| >= 1 && |parts[|parts| - 1]| >= 1
    ensures var s := JoinWith(parts, sep); |s| >= 1 && s[|s| - 1] == parts[|parts| - 1][|parts[|parts| - 1]| - 1]
    decreases |parts|
  {
    if |parts| > 1 {
      JoinLast(parts[1..], sep);
    }
  }

  /** Appending to the last part appends to the join. */
  lemma {:induction false} JoinAppendLast(parts: seq<string>, sep: char, x: string)
    requires |parts| >= 1
    ensures JoinWith(parts[..|parts| - 1] + [parts[|parts| - 1] + x], sep) == JoinWith(parts, sep) + x
    decreases |parts|
  {
    var extended := parts[..|parts| - 1] + [parts[|parts| - 1] + x];
    if |parts| > 1 {
      var tail := parts[1..];
      JoinAppendLast(tail, sep, x);
      assert extended[0] == parts[0];
      assert extended[1..] == tail[..|tail| - 1] + [tail[|tail| - 1] + x];
    }
  }

  /** A join of separator-free parts with a separator outside `seps` is `seps`-free. */
  lemma {:induction false} JoinNoneIn(parts: seq<string>, sep: char, seps: set<char>)
    requires FreeOf(parts, seps) && sep !in seps
    ensures NoneIn(JoinWith(parts, sep), seps)
    decreases |parts|
  {
    if |parts| > 1 {
      JoinNoneIn(parts[1..], sep, seps);
      assert NoneIn(parts[0], seps);
      var s := JoinWith(parts, sep);
      forall j | 0 <= j < |s| ensures s[j] !in seps {
        if j < |parts[0]| {
          assert s[j] == parts[0][j];
        } else if j > |parts[0]| {
          assert s[j] == JoinWith(parts[1..], sep)[j - |parts[0]| - 1];
        }
      }
    } else if |parts| == 1 {
      assert NoneIn(parts[0], seps);
    }
  }

}
