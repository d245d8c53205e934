/**
 * The parts of Go's `strings` package the parser relies on: trimming
 * (`Trim`, `TrimSpace`), `Split` on a one-character separator and `Join`.
 * Strings are sequences of Unicode scalar values; Go's strings are UTF-8
 * bytes, which changes nothing for these operations on valid text.
 */
module GoStrings {

  /** Go's `unicode.IsSpace`: the Unicode White_Space characters. */
  predicate IsSpace(c: char) {
    || c == '\t' || c == '\n' || c == '\U{000B}' || c == '\U{000C}' || c == '\r' || c == ' '
    || c == '\U{0085}' || c == '\U{00A0}' || c == '\U{1680}'
    || ('\U{2000}' <= c <= '\U{200A}')
    || c == '\U{2028}' || c == '\U{2029}' || c == '\U{202F}' || c == '\U{205F}' || c == '\U{3000}'
  }

  /** `strings.TrimLeftFunc`: drops the longest prefix whose characters satisfy `f`. */
  function TrimLeftFunc(s: string, f: char -> bool): string
    decreases |s|
  {
    if s != [] && f(s[0]) then TrimLeftFunc(s[1..], f) else s
  }

  /** What `TrimLeftFunc` keeps: a suffix of `s`, after only cut characters, not starting with one. */
  lemma {:induction false} TrimLeftFuncShape(s: string, f: char -> bool)
    ensures var r := TrimLeftFunc(s, f);
      && |r| <= |s| && r == s[|s| - |r|..]
      && (forall i :: 0 <= i < |s| - |r| ==> f(s[i]))
      && (r != [] ==> !f(r[0]))
    decreases |s|
  {
    if s != [] && f(s[0]) {
      TrimLeftFuncShape(s[1..], f);
    }
  }

  /** `strings.TrimRightFunc`: drops the longest suffix whose characters satisfy `f`. */
  function TrimRightFunc(s: string, f: char -> bool): string
    decreases |s|
  {
    if s != [] && f(s[|s| - 1]) then TrimRightFunc(s[..|s| - 1], f) else s
  }

  /** What `TrimRightFunc` keeps: a prefix of `s`, before only cut characters, not ending with one. */
  lemma {:induction false} TrimRightFuncShape(s: string, f: char -> bool)
    ensures var r := TrimRightFunc(s, f);
      && |r| <= |s| && r == s[..|r|]
      && (forall i :: |r| <= i < |s| ==> f(s[i]))
      && (r != [] ==> !f(r[|r| - 1]))
    decreases |s|
  {
    if s != [] && f(s[|s| - 1]) {
      TrimRightFuncShape(s[..|s| - 1], f);
    }
  }

  /** `r` is `s[a..a + |r|]` and everything cut off around it satisfies `f`. */
  ghost predicate TrimmedAt(s: string, f: char -> bool, a: int, r: string) {
    && 0 <= a <= |s| - |r| && r == s[a..a + |r|]
    && (forall i :: 0 <= i < a ==> f(s[i]))
    && (forall i :: a + |r| <= i < |s| ==> f(s[i]))
  }

  /** `strings.TrimFunc`: both ends, left first as Go does. */
  function TrimFunc(s: string, f: char -> bool): string {
    TrimRightFunc(TrimLeftFunc(s, f), f)
  }

  /** What `TrimFunc` keeps: one slice of `s`, with only cut characters around it and none at its ends. */
  lemma TrimFuncShape(s: string, f: char -> bool)
    ensures exists a :: TrimmedAt(s, f, a, TrimFunc(s, f))
    ensures TrimFunc(s, f) != [] ==> !f(TrimFunc(s, f)[0]) && !f(TrimFunc(s, f)[|TrimFunc(s, f)| - 1])
  {
    var l := TrimLeftFunc(s, f);
    TrimLeftFuncShape(s, f);
    var r := TrimRightFunc(l, f);
    TrimRightFuncShape(l, f);
    var a := |s| - |l|;
    assert TrimmedAt(s, f, a, TrimFunc(s, f));
  }

  /** `strings.Trim(s, cutset)`: strips every leading and trailing character of `cutset`. */
  function Trim(s: string, cutset: string): string {
    TrimFunc(s, c => c in cutset)
  }

  /** `strings.TrimSpace`. */
  function TrimSpace(s: string): string {
    TrimFunc(s, IsSpace)
  }

  /** Trimming is idempotent. */
  lemma TrimFuncIdempotent(s: string, f: char -> bool)
    ensures TrimFunc(TrimFunc(s, f), f) == TrimFunc(s, f)
  {
    var t := TrimFunc(s, f);
    TrimFuncShape(s, f);
    assert TrimLeftFunc(t, f) == t;
    assert TrimRightFunc(t, f) == t;
  }

  lemma TrimSpaceIdempotent(s: string)
    ensures TrimSpace(TrimSpace(s)) == TrimSpace(s)
  {
    TrimFuncIdempotent(s, IsSpace);
  }

  /** `s` has no white space at either end. */
  predicate NoSpaceAtEnds(s: string) {
    s == [] || (!IsSpace(s[0]) && !IsSpace(s[|s| - 1]))
  }

  /** `TrimSpace` leaves no white space at the ends, and a string is its own `TrimSpace` exactly when it has none there. */
  lemma TrimSpaceFixed(s: string)
    ensures NoSpaceAtEnds(TrimSpace(s))
    ensures TrimSpace(s) == s <==> NoSpaceAtEnds(s)
  {
    TrimFuncShape(s, IsSpace);
    if NoSpaceAtEnds(s) {
      assert TrimLeftFunc(s, IsSpace) == s;
      assert TrimRightFunc(s, IsSpace) == s;
    }
  }

  /** A string with a character outside the cut set never trims to empty. */
  lemma TrimFuncKeeps(s: string, f: char -> bool, i: int)
    requires 0 <= i < |s| && !f(s[i])
    ensures TrimFunc(s, f) != []
  {
    var l := TrimLeftFunc(s, f);
    TrimLeftFuncShape(s, f);
    assert |s| - |l| <= i;
    assert l[i - (|s| - |l|)] == s[i];
    var r := TrimRightFunc(l, f);
    TrimRightFuncShape(l, f);
    assert |r| > i - (|s| - |l|);
  }

  /** `strings.Join(parts, sep)`. */
  function Join(parts: seq<string>, sep: string): (r: string)
    ensures parts == [] ==> r == []
    decreases |parts|
  {
    if parts == [] then []
    else if |parts| == 1 then parts[0]
    else parts[0] + sep + Join(parts[1..], sep)
  }

  /** Every character of every part occurs in the joined string. */
  lemma {:induction false} JoinContains(parts: seq<string>, sep: string, i: int, k: int)
    requires 0 <= i < |parts| && 0 <= k < |parts[i]|
    ensures exists m :: 0 <= m < |Join(parts, sep)| && Join(parts, sep)[m] == parts[i][k]
    decreases |parts|
  {
    if i == 0 {
      assert Join(parts, sep)[k] == parts[0][k];
    } else {
      JoinContains(parts[1..], sep, i - 1, k);
      var rest := Join(parts[1..], sep);
      var m :| 0 <= m < |rest| && rest[m] == parts[1..][i - 1][k];
      var pre := parts[0] + sep;
      assert Join(parts, sep) == pre + rest;
      assert Join(parts, sep)[|pre| + m] == parts[i][k];
    }
  }

  /** Joining empty parts with the empty separator gives the empty string. */
  lemma {:induction false} JoinEmpty(parts: seq<string>)
    requires forall i :: 0 <= i < |parts| ==> parts[i] == []
    ensures Join(parts, "") == []
    decreases |parts|
  {
    if |parts| > 1 {
      JoinEmpty(parts[1..]);
    }
  }

  /**
   * For fields that are already trimmed, the parser's "is the joined row
   * blank" test holds exactly when some field is non-empty.
   */
  lemma BlankJoinIff(fields: seq<string>)
    requires forall i :: 0 <= i < |fields| ==> TrimSpace(fields[i]) == fields[i]
    ensures TrimSpace(Join(fields, "")) != "" <==> exists i :: 0 <= i < |fields| && fields[i] != ""
  {
    if exists i :: 0 <= i < |fields| && fields[i] != "" {
      var i :| 0 <= i < |fields| && fields[i] != "";
      TrimSpaceFixed(fields[i]);
      assert !IsSpace(fields[i][0]);
      JoinContains(fields, "", i, 0);
      var j := Join(fields, "");
      var m :| 0 <= m < |j| && j[m] == fields[i][0];
      TrimFuncKeeps(j, IsSpace, m);
    } else {
      JoinEmpty(fields);
    }
  }

  /** Number of occurrences of `c` in `s`. */
  function Count(s: string, c: char): (n: nat)
    ensures n <= |s|
    ensures n == 0 <==> c !in s
  {
    if s == [] then 0 else Count(s[1..], c) + (if s[0] == c then 1 else 0)
  }

  /** `strings.Split(s, [sep])` for a one-character separator. */
  function Split(s: string, sep: char): (r: seq<string>)
    ensures |r| >= 1
    ensures forall i :: 0 <= i < |r| ==> sep !in r[i]
    decreases |s|
  {
    if s == [] then [""]
    else
      var rest := Split(s[1..], sep);
      if s[0] == sep then [""] + rest
      else [[s[0]] + rest[0]] + rest[1..]
  }

  /** `Split` yields one piece more than there are separators. */
  lemma {:induction false} SplitCount(s: string, sep: char)
    ensures |Split(s, sep)| == Count(s, sep) + 1
    decreases |s|
  {
    if s != [] {
      SplitCount(s[1..], sep);
    }
  }

  /** Joining the pieces of `Split` with the separator restores the string. */
  lemma {:induction false} JoinSplit(s: string, sep: char)
    ensures Join(Split(s, sep), [sep]) == s
    decreases |s|
  {
    if s != [] {
      JoinSplit(s[1..], sep);
      var rest := Split(s[1..], sep);
      if s[0] == sep {
        assert Split(s, sep) == [""] + rest;
        assert ([""] + rest)[1..] == rest;
      } else {
        var p := [[s[0]] + rest[0]] + rest[1..];
        assert Split(s, sep) == p;
        if |rest| == 1 {
          assert Join(rest, [sep]) == rest[0];
        } else {
          assert p[1..] == rest[1..];
          assert Join(rest, [sep]) == rest[0] + [sep] + Join(rest[1..], [sep]);
        }
      }
    }
  }

  /** Splitting text that starts with a separator-free word. */
  lemma {:induction false} SplitWord(w: string, sep: char, t: string)
    requires sep !in w
    ensures Split(w + [sep] + t, sep) == [w] + Split(t, sep)
    decreases |w|
  {
    if w == [] {
      assert [sep] + t == w + [sep] + t;
      assert ([sep] + t)[1..] == t;
    } else {
      SplitWord(w[1..], sep, t);
      assert (w + [sep] + t)[1..] == w[1..] + [sep] + t;
      assert [w[0]] + w[1..] == w;
    }
  }

  /** A word without separator splits into itself. */
  lemma {:induction false} SplitNone(w: string, sep: char)
    requires sep !in w
    ensures Split(w, sep) == [w]
    decreases |w|
  {
    if w != [] {
      SplitNone(w[1..], sep);
      assert [w[0]] + w[1..] == w;
    }
  }

  /** `Split` inverts `Join` on separator-free, non-empty lists of parts. */
  lemma {:induction false} SplitJoin(parts: seq<string>, sep: char)
    requires |parts| >= 1
    requires forall i :: 0 <= i < |parts| ==> sep !in parts[i]
    ensures Split(Join(parts, [sep]), sep) == parts
    decreases |parts|
  {
    if |parts| == 1 {
      SplitNone(parts[0], sep);
    } else {
      SplitJoin(parts[1..], sep);
      SplitWord(parts[0], sep, Join(parts[1..], [sep]));
    }
  }

  /** A leading separator-free word is the first piece; what follows its separator splits on its own. */
  lemma SplitHead(w: string, sep: char, rest: string)
    requires sep !in w
    requires rest == [] || rest[0] == sep
    ensures rest == [] ==> Split(w + rest, sep) == [w]
    ensures rest != [] ==> Split(w + rest, sep) == [w] + Split(rest[1..], sep)
  {
    if rest == [] {
      assert w + rest == w;
      SplitNone(w, sep);
    } else {
      assert w + rest == w + [sep] + rest[1..];
      SplitWord(w, sep, rest[1..]);
    }
  }

  /** The last piece is what follows the last separator. */
  lemma {:induction false} SplitLast(x: string, sep: char, t: string)
    requires sep !in t
    ensures Split(x + [sep] + t, sep)[|Split(x + [sep] + t, sep)| - 1] == t
    decreases |x|
  {
    var s := x + [sep] + t;
    if x == [] {
      assert s[1..] == t;
      SplitNone(t, sep);
    } else {
      SplitLast(x[1..], sep, t);
      assert s[1..] == x[1..] + [sep] + t;
      var rest := Split(s[1..], sep);
      SplitCount(s[1..], sep);
      assert s[1..][|x| - 1] == sep;
      assert |rest| >= 2;
    }
  }
}
