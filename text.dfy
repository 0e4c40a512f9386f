/**
 * The few Python string operations the bot relies on, stated over `string`
 * (a sequence of Unicode scalar values, as a Python `str` is a sequence of
 * code points): `str.split(sep)` and `sep.join(...)` for a one-character
 * separator, `str.strip()` with no argument, `str.lower()` restricted to
 * ASCII, and the slice `s[:n]`.
 */
module Text {

  import opened Wrappers

  // ---------------------------------------------------------------------
  // split / join
  // ---------------------------------------------------------------------

  /** The first position of `c` in `s`, if any. */
  function IndexOf(s: string, c: char): (r: Option<nat>)
    ensures r.Some? ==> r.value < |s| && s[r.value] == c
  {
    if s == [] then None
    else if s[0] == c then Some(0)
    else match IndexOf(s[1..], c)
      case None => None
      case Some(k) => Some(k + 1)
  }

  /** `c` is found exactly when it occurs, and what is found is its first
      occurrence. */
  lemma {:induction false} IndexOfSpec(s: string, c: char)
    ensures var r := IndexOf(s, c);
      (r.None? <==> c !in s) && (r.Some? ==> c !in s[..r.value])
  {
    if s != [] && s[0] != c {
      IndexOfSpec(s[1..], c);
      assert s == [s[0]] + s[1..];
      match IndexOf(s[1..], c)
      case None =>
      case Some(k) =>
        assert s[..k + 1] == [s[0]] + s[1..][..k];
    }
  }

  /** A position holding `c` with no `c` before it is the one found. */
  lemma {:induction false} IndexOfFirst(s: string, c: char, j: nat)
    requires j < |s| && s[j] == c && c !in s[..j]
    ensures IndexOf(s, c) == Some(j)
  {
    if j > 0 {
      assert s[..j][0] == s[0];
      assert s[1..][..j - 1] == s[1..j] == s[..j][1..];
      IndexOfFirst(s[1..], c, j - 1);
    }
  }

  /** The first separator of a string that starts with a separator-free part
      and then a separator sits right after that part. */
  lemma IndexOfAfterPlain(a: string, t: string, sep: char)
    requires sep !in a && t != [] && t[0] == sep
    ensures IndexOf(a + t, sep) == Some(|a|)
  {
    var s := a + t;
    assert s[..|a|] == a;
    IndexOfFirst(s, sep, |a|);
  }

  /** `s.split(sep)`: the pieces between separators, in order; never empty
      (`"".split(sep) == [""]`). */
  function Split(s: string, sep: char): (r: seq<string>)
    ensures |r| >= 1
    decreases |s|
  {
    match IndexOf(s, sep)
    case None => [s]
    case Some(k) => [s[..k]] + Split(s[k + 1..], sep)
  }

  /** A split has a single piece exactly when there is no separator. */
  lemma SplitSingle(s: string, sep: char)
    ensures |Split(s, sep)| == 1 <==> sep !in s
  {
    IndexOfSpec(s, sep);
    match IndexOf(s, sep)
    case None =>
    case Some(k) =>
      SplitUnfold(s, sep, k);
  }

  /** No piece of a split holds the separator. */
  lemma {:induction false} SplitPiecesFree(s: string, sep: char)
    ensures forall i :: 0 <= i < |Split(s, sep)| ==> sep !in Split(s, sep)[i]
    decreases |s|
  {
    IndexOfSpec(s, sep);
    match IndexOf(s, sep)
    case None =>
    case Some(k) =>
      var rest := Split(s[k + 1..], sep);
      SplitPiecesFree(s[k + 1..], sep);
      var r := Split(s, sep);
      assert r == [s[..k]] + rest;
      forall i | 0 <= i < |r|
        ensures sep !in r[i]
      {
        if i > 0 {
          assert r[i] == rest[i - 1];
        }
      }
  }

  /** `sep.join(segs)`: the segments with one separator between neighbours. */
  function Join(segs: seq<string>, sep: char): string
  {
    if segs == [] then ""
    else if |segs| == 1 then segs[0]
    else segs[0] + [sep] + Join(segs[1..], sep)
  }

  /** Total length of the segments. */
  function TotalLength(segs: seq<string>): nat
  {
    if segs == [] then 0 else |segs[0]| + TotalLength(segs[1..])
  }

  /** Joining adds exactly one separator between each pair of neighbours. */
  lemma {:induction false} JoinLength(segs: seq<string>, sep: char)
    requires |segs| >= 1
    ensures |Join(segs, sep)| == TotalLength(segs) + |segs| - 1
  {
    if |segs| > 1 {
      JoinLength(segs[1..], sep);
    }
  }

  /** Joining the pieces of a split gives back the string. */
  lemma {:induction false} JoinSplit(s: string, sep: char)
    ensures Join(Split(s, sep), sep) == s
    decreases |s|
  {
    match IndexOf(s, sep)
    case None =>
    case Some(k) =>
      var rest := Split(s[k + 1..], sep);
      JoinSplit(s[k + 1..], sep);
      var r := [s[..k]] + rest;
      assert r[0] == s[..k] && r[1..] == rest;
      assert s[..k] + [sep] + s[k + 1..] == s;
  }

  /** Splitting a join of separator-free segments recovers the segments, in
      order. */
  lemma {:induction false} SplitJoin(segs: seq<string>, sep: char)
    requires |segs| >= 1
    requires forall i :: 0 <= i < |segs| ==> sep !in segs[i]
    ensures Split(Join(segs, sep), sep) == segs
  {
    if |segs| > 1 {
      var a, tail := segs[0], Join(segs[1..], sep);
      SplitJoin(segs[1..], sep);
      var s := a + ([sep] + tail);
      assert Join(segs, sep) == s;
      IndexOfAfterPlain(a, [sep] + tail, sep);
      assert s[..|a|] == a && s[|a| + 1..] == tail;
      assert [a] + segs[1..] == segs;
    }
  }

  /** One step of a split: the piece before the first separator, then the
      split of the rest. */
  lemma SplitUnfold(s: string, sep: char, k: nat)
    requires IndexOf(s, sep) == Some(k)
    ensures Split(s, sep) == [s[..k]] + Split(s[k + 1..], sep)
  {
  }

  /** `l` is what follows the last separator of `s` (all of `s` when it
      holds none). */
  predicate IsLastPiece(s: string, l: string, sep: char)
  {
    |l| <= |s| && l == s[|s| - |l|..] && sep !in l && (|l| < |s| ==> s[|s| - |l| - 1] == sep)
  }

  /** A string without separators is its own last piece. */
  lemma LastPieceWhole(s: string, sep: char)
    requires sep !in s
    ensures IsLastPiece(s, s, sep)
  {
    assert s[0..] == s;
  }

  /** A last piece of the text after a separator is a last piece of the whole. */
  lemma LastPieceExtend(s: string, k: nat, l: string, sep: char)
    requires k < |s| && s[k] == sep && IsLastPiece(s[k + 1..], l, sep)
    ensures IsLastPiece(s, l, sep)
  {
    var t := s[k + 1..];
    assert t[|t| - |l|..] == s[|s| - |l|..];
    if |l| < |t| {
      assert t[|t| - |l| - 1] == s[|s| - |l| - 1];
    }
  }

  /** A string has one last piece. */
  lemma LastPieceUnique(s: string, l: string, m: string, sep: char)
    requires IsLastPiece(s, l, sep) && IsLastPiece(s, m, sep)
    ensures l == m
  {
    LongerSuffixHasSep(s, l, m, sep);
    LongerSuffixHasSep(s, m, l, sep);
  }

  /** Any suffix longer than the last piece reaches back to a separator. */
  lemma LongerSuffixHasSep(s: string, l: string, m: string, sep: char)
    requires IsLastPiece(s, l, sep) && |m| <= |s| && m == s[|s| - |m|..]
    ensures |l| < |m| ==> sep in m
  {
    if |l| < |m| {
      assert m[|m| - |l| - 1] == s[|s| - |l| - 1];
    }
  }

  /** The text after the first separator, again and again. */
  function AfterSeparators(s: string, sep: char): string
    decreases |s|
  {
    match IndexOf(s, sep)
    case None => s
    case Some(k) => AfterSeparators(s[k + 1..], sep)
  }

  /** What follows the separators is the last piece of the string. */
  lemma {:induction false} AfterSeparatorsIsLast(s: string, sep: char)
    ensures IsLastPiece(s, AfterSeparators(s, sep), sep)
    decreases |s|
  {
    match IndexOf(s, sep)
    case None =>
      IndexOfSpec(s, sep);
      LastPieceWhole(s, sep);
    case Some(k) =>
      AfterSeparatorsIsLast(s[k + 1..], sep);
      LastPieceExtend(s, k, AfterSeparators(s[k + 1..], sep), sep);
  }

  /** The last piece of a split is what follows the separators. */
  lemma {:induction false} SplitLastIsAfter(s: string, sep: char)
    ensures var r := Split(s, sep); r[|r| - 1] == AfterSeparators(s, sep)
    decreases |s|
  {
    match IndexOf(s, sep)
    case None =>
    case Some(k) =>
      var t := s[k + 1..];
      SplitLastIsAfter(t, sep);
      assert AfterSeparators(s, sep) == AfterSeparators(t, sep);
      var r, rest := Split(s, sep), Split(t, sep);
      assert r == [s[..k]] + rest by { SplitUnfold(s, sep, k); }
      LastOfCons(s[..k], rest);
  }

  /** A non-empty sequence is its front followed by its last element. */
  lemma InitLast<T>(s: seq<T>)
    requires |s| > 0
    ensures s[..|s| - 1] + [s[|s| - 1]] == s
  {
  }

  /** The last element of a sequence with one more element in front. */
  lemma LastOfCons<T>(x: T, r: seq<T>)
    requires |r| >= 1
    ensures ([x] + r)[|[x] + r| - 1] == r[|r| - 1]
  {
  }

  /** The last piece of a split is the suffix of `s` after its last
      separator, or the whole of `s` when there is none. */
  lemma SplitLast(s: string, sep: char)
    ensures var r := Split(s, sep); IsLastPiece(s, r[|r| - 1], sep)
  {
    SplitLastIsAfter(s, sep);
    AfterSeparatorsIsLast(s, sep);
  }

  // ---------------------------------------------------------------------
  // lower()
  // ---------------------------------------------------------------------

  predicate IsUpperAscii(c: char)
  {
    'A' <= c <= 'Z'
  }

  predicate IsAsciiLetter(c: char)
  {
    IsUpperAscii(c) || 'a' <= c <= 'z'
  }

  function LowerChar(c: char): (d: char)
    ensures !IsUpperAscii(d)
    ensures d == c <==> !IsUpperAscii(c)
    ensures IsUpperAscii(c) ==> d as int == c as int + 32
  {
    if IsUpperAscii(c) then (c as int + 32) as char else c
  }

  /** `s.lower()` on the ASCII letters; every other character is kept. */
  function LowerAscii(s: string): (r: string)
    ensures |r| == |s|
    ensures forall i :: 0 <= i < |r| ==> !IsUpperAscii(r[i])
    ensures forall i :: 0 <= i < |s| && !IsUpperAscii(s[i]) ==> r[i] == s[i]
    ensures forall i :: 0 <= i < |s| && IsUpperAscii(s[i]) ==> r[i] as int == s[i] as int + 32
  {
    seq(|s|, i requires 0 <= i < |s| => LowerChar(s[i]))
  }

  /** Lower-casing twice is lower-casing once. */
  lemma LowerAsciiIdempotent(s: string)
    ensures LowerAscii(LowerAscii(s)) == LowerAscii(s)
  {
  }

  /** Each string of a list, lower-cased. */
  function LowerAll(r: seq<string>): (q: seq<string>)
    ensures |q| == |r|
  {
    if r == [] then [] else [LowerAscii(r[0])] + LowerAll(r[1..])
  }

  /** The lower-cased strings of a list, position by position. */
  lemma {:induction false} LowerAllAt(r: seq<string>, i: nat)
    requires i < |r|
    ensures LowerAll(r)[i] == LowerAscii(r[i])
  {
    if i > 0 {
      LowerAllAt(r[1..], i - 1);
    }
  }

  /** Lower-casing moves no separator that is not a letter. */
  lemma {:induction false} IndexOfLowerAscii(s: string, sep: char)
    requires !IsAsciiLetter(sep)
    ensures IndexOf(LowerAscii(s), sep) == IndexOf(s, sep)
  {
    if s != [] {
      IndexOfLowerAscii(s[1..], sep);
      assert LowerAscii(s)[1..] == LowerAscii(s[1..]);
    }
  }

  /** Lower-casing commutes with splitting on a separator that is not a
      letter: the pieces of the lower-cased string are the lower-cased
      pieces. */
  lemma {:induction false} SplitLowerAscii(s: string, sep: char)
    requires !IsAsciiLetter(sep)
    ensures Split(LowerAscii(s), sep) == LowerAll(Split(s, sep))
    decreases |s|
  {
    var low := LowerAscii(s);
    IndexOfLowerAscii(s, sep);
    match IndexOf(s, sep)
    case None =>
      assert LowerAll([s]) == [low];
    case Some(k) =>
      SplitLowerAscii(s[k + 1..], sep);
      assert low[..k] == LowerAscii(s[..k]);
      assert low[k + 1..] == LowerAscii(s[k + 1..]);
      var r := [s[..k]] + Split(s[k + 1..], sep);
      assert r[0] == s[..k] && r[1..] == Split(s[k + 1..], sep);
  }

  // ---------------------------------------------------------------------
  // strip()
  // ---------------------------------------------------------------------

  /** Python's `str.isspace()`, the set `str.strip()` removes: the ASCII
      controls TAB..CR and FS..US, SPACE, NEL, NBSP, OGHAM SPACE MARK, EN QUAD
      through HAIR SPACE, LINE and PARAGRAPH SEPARATOR, NARROW NBSP, MEDIUM
      MATHEMATICAL SPACE and IDEOGRAPHIC SPACE. */
  predicate IsSpace(c: char)
  {
    var n := c as int;
    (0x09 <= n <= 0x0D) || (0x1C <= n <= 0x20) || n == 0x85 || n == 0xA0 ||
    n == 0x1680 || (0x2000 <= n <= 0x200A) || n == 0x2028 || n == 0x2029 ||
    n == 0x202F || n == 0x205F || n == 0x3000
  }

  /** `s.lstrip()`. */
  function TrimStart(s: string): string
  {
    if s != [] && IsSpace(s[0]) then TrimStart(s[1..]) else s
  }

  /** `s.rstrip()`. */
  function TrimEnd(s: string): string
  {
    if s != [] && IsSpace(s[|s| - 1]) then TrimEnd(s[..|s| - 1]) else s
  }

  /** `lstrip` leaves the suffix that starts at the first non-whitespace character. */
  lemma {:induction false} TrimStartSuffix(s: string)
    ensures var r := TrimStart(s);
      |r| <= |s| && r == s[|s| - |r|..] &&
      (forall i :: 0 <= i < |s| - |r| ==> IsSpace(s[i])) &&
      (r != [] ==> !IsSpace(r[0]))
  {
    if s != [] && IsSpace(s[0]) {
      var t := s[1..];
      TrimStartSuffix(t);
      var r := TrimStart(t);
      assert TrimStart(s) == r;
      assert t[|t| - |r|..] == s[|s| - |r|..];
      forall i | 0 <= i < |s| - |r|
        ensures IsSpace(s[i])
      {
        if i > 0 {
          assert s[i] == t[i - 1];
        }
      }
    } else {
      assert TrimStart(s) == s == s[0..];
    }
  }

  /** `rstrip` leaves the prefix that ends at the last non-whitespace character. */
  lemma {:induction false} TrimEndPrefix(s: string)
    ensures var r := TrimEnd(s);
      |r| <= |s| && r == s[..|r|] &&
      (forall i :: |r| <= i < |s| ==> IsSpace(s[i])) &&
      (r != [] ==> !IsSpace(r[|r| - 1]))
  {
    if s != [] && IsSpace(s[|s| - 1]) {
      var t := s[..|s| - 1];
      TrimEndPrefix(t);
      var r := TrimEnd(t);
      assert TrimEnd(s) == r;
      assert t[..|r|] == s[..|r|];
      forall i | |r| <= i < |s|
        ensures IsSpace(s[i])
      {
        if i < |s| - 1 {
          assert s[i] == t[i];
        }
      }
    } else {
      assert TrimEnd(s) == s == s[..|s|];
    }
  }

  /** Trailing whitespace after a part that does not end in whitespace is
      exactly what `rstrip` removes. */
  lemma {:induction false} TrimEndPadded(a: string, w: string)
    requires a == [] || !IsSpace(a[|a| - 1])
    requires forall i :: 0 <= i < |w| ==> IsSpace(w[i])
    ensures TrimEnd(a + w) == a
    decreases |w|
  {
    if w == [] {
      assert a + w == a;
    } else {
      var s := a + w;
      assert s[|s| - 1] == w[|w| - 1];
      assert s[..|s| - 1] == a + w[..|w| - 1];
      TrimEndPadded(a, w[..|w| - 1]);
    }
  }

  /** `s.strip()`. */
  function Strip(s: string): string
  {
    TrimEnd(TrimStart(s))
  }

  /** `strip` keeps a contiguous part of `s` that neither starts nor ends with
      whitespace, and is empty exactly when `s` is all whitespace. */
  lemma StripSpec(s: string)
    ensures var r := Strip(s);
      (forall c :: c in r ==> c in s) &&
      (exists i, j :: 0 <= i <= j <= |s| && r == s[i..j] &&
        (forall k :: 0 <= k < i ==> IsSpace(s[k])) &&
        (forall k :: j <= k < |s| ==> IsSpace(s[k]))) &&
      (r != [] ==> !IsSpace(r[0]) && !IsSpace(r[|r| - 1])) &&
      (r == [] <==> forall i :: 0 <= i < |s| ==> IsSpace(s[i]))
  {
    var t := TrimStart(s);
    var r := TrimEnd(t);
    TrimStartSuffix(s);
    TrimEndPrefix(t);
    assert forall c :: c in r ==> c in t;
    StripIsSlice(s);
    if r == [] {
      assert t == [];
    } else {
      assert r[0] == t[0];
      assert !IsSpace(s[|s| - |t|]);
    }
  }

  /** `strip` cuts a slice out of `s`, dropping only whitespace around it. */
  lemma StripIsSlice(s: string)
    ensures var r := Strip(s);
      exists i, j :: 0 <= i <= j <= |s| && r == s[i..j] &&
        (forall k :: 0 <= k < i ==> IsSpace(s[k])) &&
        (forall k :: j <= k < |s| ==> IsSpace(s[k]))
  {
    var t := TrimStart(s);
    var r := TrimEnd(t);
    TrimStartSuffix(s);
    TrimEndPrefix(t);
    var i := |s| - |t|;
    var j := i + |r|;
    assert r == s[i..j] by {
      assert t == s[i..];
      assert r == t[..|r|];
    }
    forall k | j <= k < |s|
      ensures IsSpace(s[k])
    {
      assert s[k] == t[k - i];
    }
  }

  /** A string is its own strip exactly when it has no leading and no
      trailing whitespace; in particular strip is idempotent. */
  lemma StripFixedPoint(s: string)
    ensures Strip(s) == s <==> (s == [] || (!IsSpace(s[0]) && !IsSpace(s[|s| - 1])))
  {
    StripSpec(s);
    if s != [] && !IsSpace(s[0]) && !IsSpace(s[|s| - 1]) {
      assert TrimStart(s) == s;
      assert TrimEnd(s) == s;
    }
  }

  lemma StripIdempotent(s: string)
    ensures Strip(Strip(s)) == Strip(s)
  {
    StripSpec(s);
    StripFixedPoint(Strip(s));
  }

  // ---------------------------------------------------------------------
  // s[:n] and fixed-frame embedding
  // ---------------------------------------------------------------------

  /** `s[:n]`: the longest prefix of `s` of at most `n` characters. */
  function Take(s: string, n: nat): (r: string)
    ensures |r| == if |s| <= n then |s| else n
    ensures r == s[..|r|]
  {
    if |s| <= n then s else s[..n]
  }

  /** The text found strictly between a known head and tail, if `s` is framed
      by them. */
  function Between(s: string, head: string, tail: string): (r: Option<string>)
  {
    if |head| + |tail| <= |s| && s[..|head|] == head && s[|s| - |tail|..] == tail
    then Some(s[|head|..|s| - |tail|])
    else None
  }

  /** Framing a text with a head and a tail can be undone. */
  lemma BetweenFrame(head: string, x: string, tail: string)
    ensures Between(head + x + tail, head, tail) == Some(x)
  {
    var s := head + x + tail;
    assert s[..|head|] == head;
    assert s[|s| - |tail|..] == tail;
    assert s[|head|..|s| - |tail|] == x;
  }
}
