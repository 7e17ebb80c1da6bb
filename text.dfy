/**
 * Text helpers shared by the indexes, the CSV readers and the browser front ends:
 * ASCII case folding (C `tolower`, JavaScript `toLowerCase` on ASCII text),
 * prefix and substring tests (`startsWith`, `includes`, `find`), JavaScript
 * `trim`, and splitting on / joining with a separator character.
 */
module Text {

  /** `std::tolower` / `toLowerCase` on one character: upper-case ASCII letters move down. */
  function LowerChar(c: char): (r: char)
    ensures 'A' <= c <= 'Z' ==> r as int == c as int + 32
    ensures !('A' <= c <= 'Z') ==> r == c
    ensures !('A' <= r <= 'Z')
  {
    if 'A' <= c <= 'Z' then (c as int + 32) as char else c
  }

  function ToLower(s: string): (r: string)
    ensures |r| == |s|
    ensures forall i :: 0 <= i < |s| ==> r[i] == LowerChar(s[i])
  {
    seq(|s|, i requires 0 <= i < |s| => LowerChar(s[i]))
  }

  /** Case folding is a projection: folding a folded string changes nothing. */
  lemma ToLowerIdempotent(s: string)
    ensures ToLower(ToLower(s)) == ToLower(s)
  {
    assert forall i :: 0 <= i < |s| ==> LowerChar(LowerChar(s[i])) == LowerChar(s[i]);
  }

  /** Folding distributes over concatenation, so folding a prefix is a prefix of the folded whole. */
  lemma ToLowerAppend(a: string, b: string)
    ensures ToLower(a + b) == ToLower(a) + ToLower(b)
  {
  }

  /** `s.startsWith(p)` (JavaScript), `s.find(p) == 0` (C++). */
  predicate StartsWith(s: string, p: string)
  {
    |p| <= |s| && s[..|p|] == p
  }

  /** `t` occurs in `s` at position `i`. */
  predicate OccursAt(s: string, t: string, i: int)
  {
    0 <= i && i + |t| <= |s| && s[i..i + |t|] == t
  }

  /** `s.includes(t)` (JavaScript), `s.find(t) != npos` (C++). */
  predicate Contains(s: string, t: string)
  {
    exists i :: 0 <= i <= |s| - |t| && OccursAt(s, t, i)
  }

  /** A prefix is a substring (found at position 0). */
  lemma StartsWithContains(s: string, p: string)
    requires StartsWith(s, p)
    ensures Contains(s, p)
  {
    assert OccursAt(s, p, 0);
  }

  /** The white space JavaScript's `String.prototype.trim` removes: the ASCII blanks, the
      no-break space, the byte-order mark, the line and paragraph separators and the
      Unicode space separators (category Zs). */
  predicate IsJsSpace(c: char)
  {
    c == ' ' || c == '\t' || c == '\n' || c == '\r' || c == '\U{000B}' || c == '\U{000C}'
    || c == '\U{00A0}' || c == '\U{1680}' || ('\U{2000}' <= c <= '\U{200A}')
    || c == '\U{2028}' || c == '\U{2029}' || c == '\U{202F}' || c == '\U{205F}'
    || c == '\U{3000}' || c == '\U{FEFF}'
  }

  function TrimStart(s: string): (r: string)
    ensures |r| <= |s|
  {
    if s != [] && IsJsSpace(s[0]) then TrimStart(s[1..]) else s
  }

  /** `TrimStart` drops exactly the leading whitespace. */
  lemma {:induction false} TrimStartFacts(s: string)
    ensures TrimStart(s) == s[|s| - |TrimStart(s)|..]
    ensures TrimStart(s) == [] || !IsJsSpace(TrimStart(s)[0])
    ensures forall i :: 0 <= i < |s| - |TrimStart(s)| ==> IsJsSpace(s[i])
  {
    if s != [] && IsJsSpace(s[0]) {
      TrimStartFacts(s[1..]);
    }
  }

  function TrimEnd(s: string): (r: string)
    ensures |r| <= |s|
  {
    if s != [] && IsJsSpace(s[|s| - 1]) then TrimEnd(s[..|s| - 1]) else s
  }

  /** `TrimEnd` drops exactly the trailing whitespace. */
  lemma {:induction false} TrimEndFacts(s: string)
    ensures TrimEnd(s) == s[..|TrimEnd(s)|]
    ensures TrimEnd(s) == [] || !IsJsSpace(TrimEnd(s)[|TrimEnd(s)| - 1])
    ensures forall i :: |TrimEnd(s)| <= i < |s| ==> IsJsSpace(s[i])
  {
    if s != [] && IsJsSpace(s[|s| - 1]) {
      TrimEndFacts(s[..|s| - 1]);
    }
  }

  /** `s.trim()`: the longest slice of `s` that neither starts nor ends with whitespace. */
  function Trim(s: string): (r: string)
    ensures r == [] || (!IsJsSpace(r[0]) && !IsJsSpace(r[|r| - 1]))
    ensures |r| <= |s|
  {
    TrimStartFacts(s);
    TrimEndFacts(TrimStart(s));
    TrimEnd(TrimStart(s))
  }

  /** What trimming keeps is a slice of the original: it removes only the ends. */
  lemma TrimInside(s: string)
    ensures Contains(s, Trim(s))
  {
    TrimStartFacts(s);
    TrimEndFacts(TrimStart(s));
    var t := TrimStart(s);
    var r := TrimEnd(t);
    var i := |s| - |t|;
    assert t == s[i..] && r == t[..|r|];
    assert r == s[i..i + |r|];
    assert OccursAt(s, r, i);
  }

  /** Trimming a string that neither starts nor ends with whitespace changes nothing,
      so trimming twice is trimming once. */
  lemma TrimFixed(s: string)
    requires s == [] || (!IsJsSpace(s[0]) && !IsJsSpace(s[|s| - 1]))
    ensures Trim(s) == s
    ensures Trim(Trim(s)) == Trim(s)
  {
  }

  /** A string made only of whitespace trims to the empty string. */
  lemma {:induction false} TrimBlank(s: string)
    requires forall i :: 0 <= i < |s| ==> IsJsSpace(s[i])
    ensures Trim(s) == []
  {
    if s != [] {
      TrimBlank(s[1..]);
    }
  }

  /** Number of occurrences of the character `c` in `s`. */
  function Occurrences(s: string, c: char): nat
  {
    if s == [] then 0 else Occurrences(s[..|s| - 1], c) + (if s[|s| - 1] == c then 1 else 0)
  }

  /** `s.split(sep)` for a one-character separator: the maximal runs between separators,
      empty runs included, so there is always at least one piece. */
  function Split(s: string, sep: char): (parts: seq<string>)
    ensures |parts| >= 1
  {
    if s == [] then [[]]
    else
      var p := Split(s[..|s| - 1], sep);
      if s[|s| - 1] == sep then p + [[]]
      else p[..|p| - 1] + [p[|p| - 1] + [s[|s| - 1]]]
  }

  /** `parts.join(sep)`: the pieces with one separator between neighbours. */
  function Join(parts: seq<string>, sep: char): string
  {
    if parts == [] then []
    else if |parts| == 1 then parts[0]
    else Join(parts[..|parts| - 1], sep) + [sep] + parts[|parts| - 1]
  }

  /** Splitting cuts at every separator and nowhere else: there is one piece more than
      there are separators, no piece holds a separator, and joining restores the text. */
  lemma SplitJoin(s: string, sep: char)
    ensures |Split(s, sep)| == 1 + Occurrences(s, sep)
    ensures forall k :: 0 <= k < |Split(s, sep)| ==> sep !in Split(s, sep)[k]
    ensures Join(Split(s, sep), sep) == s
  {
    SplitCount(s, sep);
    SplitPieces(s, sep);
    SplitJoined(s, sep);
  }

  lemma {:induction false} SplitCount(s: string, sep: char)
    ensures |Split(s, sep)| == 1 + Occurrences(s, sep)
  {
    if s != [] {
      SplitCount(s[..|s| - 1], sep);
    }
  }

  lemma {:induction false} SplitPieces(s: string, sep: char)
    ensures forall k :: 0 <= k < |Split(s, sep)| ==> sep !in Split(s, sep)[k]
  {
    if s != [] {
      var init := s[..|s| - 1];
      var c := s[|s| - 1];
      SplitPieces(init, sep);
      var p := Split(init, sep);
      if c == sep {
        var q := p + [[]];
        assert Split(s, sep) == q;
        forall k | 0 <= k < |q| ensures sep !in q[k] {
          if k < |p| {
            assert q[k] == p[k];
          }
        }
      } else {
        var q := p[..|p| - 1] + [p[|p| - 1] + [c]];
        assert Split(s, sep) == q;
        forall k | 0 <= k < |q| ensures sep !in q[k] {
          if k < |p| - 1 {
            assert q[k] == p[k];
          } else {
            assert q[k] == p[|p| - 1] + [c];
          }
        }
      }
    }
  }

  lemma {:induction false} SplitJoined(s: string, sep: char)
    ensures Join(Split(s, sep), sep) == s
  {
    if s != [] {
      SplitJoined(s[..|s| - 1], sep);
      if s[|s| - 1] == sep {
        SplitJoinedAtSep(s, sep);
      } else {
        SplitJoinedInPiece(s, sep);
      }
    }
  }

  /** The step of `SplitJoined` for a text that ends in the separator. */
  lemma SplitJoinedAtSep(s: string, sep: char)
    requires s != [] && s[|s| - 1] == sep
    requires Join(Split(s[..|s| - 1], sep), sep) == s[..|s| - 1]
    ensures Join(Split(s, sep), sep) == s
  {
    var p := Split(s[..|s| - 1], sep);
    assert Split(s, sep) == p + [[]];
    JoinNewPiece(p, sep);
    assert s == s[..|s| - 1] + [sep];
  }

  /** The step of `SplitJoined` for a text that ends in any other character. */
  lemma SplitJoinedInPiece(s: string, sep: char)
    requires s != [] && s[|s| - 1] != sep
    requires Join(Split(s[..|s| - 1], sep), sep) == s[..|s| - 1]
    ensures Join(Split(s, sep), sep) == s
  {
    var p := Split(s[..|s| - 1], sep);
    var c := s[|s| - 1];
    assert Split(s, sep) == p[..|p| - 1] + [p[|p| - 1] + [c]];
    JoinExtendPiece(p, c, sep);
    assert s == s[..|s| - 1] + [c];
  }

  /** Starting a new, empty piece adds one separator to the joined text. */
  lemma JoinNewPiece(p: seq<string>, sep: char)
    requires p != []
    ensures Join(p + [[]], sep) == Join(p, sep) + [sep]
  {
    assert (p + [[]])[..|p|] == p;
  }

  /** Extending the last piece by `c` extends the joined text by `c`. */
  lemma JoinExtendPiece(p: seq<string>, c: char, sep: char)
    requires p != []
    ensures Join(p[..|p| - 1] + [p[|p| - 1] + [c]], sep) == Join(p, sep) + [c]
  {
    var q := p[..|p| - 1] + [p[|p| - 1] + [c]];
    if |p| > 1 {
      assert q[..|q| - 1] == p[..|p| - 1];
    }
  }
}
