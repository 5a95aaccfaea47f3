/**
 Go's `strings.Split` and `strings.Join` for a one-byte separator, the only
 kind the command parser uses (a single space). Split and Join are each
 other's inverse: joining the pieces of a split gives back the text, and
 splitting a join of separator-free pieces gives back the pieces.
 */
module Strings {
  import opened GoTypes

  /** No byte of s is b. */
  predicate Excludes(s: Bytes, b: bv8) {
    forall i | 0 <= i < |s| :: s[i] != b
  }

  /** No piece contains the separator. */
  predicate PiecesExclude(parts: seq<Bytes>, sep: bv8) {
    forall i | 0 <= i < |parts| :: Excludes(parts[i], sep)
  }

  /** Position of the first occurrence of b in s, or -1 (Go's `strings.IndexByte`). */
  function IndexOf(s: Bytes, b: bv8): (r: int)
    ensures -1 <= r < |s|
    ensures r == -1 <==> Excludes(s, b)
    ensures 0 <= r ==> s[r] == b && Excludes(s[..r], b)
    decreases |s|
  {
    if |s| == 0 then -1
    else if s[0] == b then 0
    else
      var k := IndexOf(s[1..], b);
      if k == -1 then -1
      else
        assert s[..k + 1] == [s[0]] + s[1..][..k];
        k + 1
  }

  /**
   Go's `strings.Join(parts, string([]byte{sep}))`. Between separator-free
   pieces it puts exactly one separator per gap.
   */
  function Join(parts: seq<Bytes>, sep: bv8): (r: Bytes)
    ensures |parts| >= 1 && PiecesExclude(parts, sep) ==> Count(r, sep) == |parts| - 1
    decreases |parts|
  {
    if |parts| == 0 then []
    else if |parts| == 1 then
      if Excludes(parts[0], sep) then CountAbsent(parts[0], sep); parts[0]
      else parts[0]
    else
      var tail := Join(parts[1..], sep);
      CountGap(parts[0], tail, sep);
      assert PiecesExclude(parts, sep) ==> PiecesExclude(parts[1..], sep) by {
        assert forall i | 0 <= i < |parts| - 1 :: parts[1..][i] == parts[i + 1];
      }
      parts[0] + [sep] + tail
  }

  /** A separator-free piece, a separator, then a tail: one more separator than the tail has. */
  lemma CountGap(p: Bytes, t: Bytes, sep: bv8)
    ensures Excludes(p, sep) ==> Count(p + [sep] + t, sep) == Count(t, sep) + 1
  {
    if Excludes(p, sep) {
      CountAppend(p, [sep] + t, sep);
      CountAbsent(p, sep);
      assert ([sep] + t)[1..] == t;
      assert p + [sep] + t == p + ([sep] + t);
    }
  }

  lemma JoinCons(p: Bytes, rest: seq<Bytes>, sep: bv8)
    requires |rest| >= 1
    ensures Join([p] + rest, sep) == p + [sep] + Join(rest, sep)
  {
    assert ([p] + rest)[1..] == rest;
  }

  lemma PiecesCons(p: Bytes, rest: seq<Bytes>, sep: bv8)
    requires Excludes(p, sep) && PiecesExclude(rest, sep)
    ensures PiecesExclude([p] + rest, sep)
  {
    forall i | 0 <= i < |[p] + rest| ensures Excludes(([p] + rest)[i], sep) {
      if i > 0 {
        assert ([p] + rest)[i] == rest[i - 1];
      }
    }
  }

  /**
   Go's `strings.Split(s, string([]byte{sep}))`: the maximal separator-free
   pieces between separators. There is always at least one piece; the empty
   text splits into one empty piece.
   */
  function Split(s: Bytes, sep: bv8): (parts: seq<Bytes>)
    ensures |parts| >= 1
    ensures PiecesExclude(parts, sep)
    ensures Join(parts, sep) == s
    decreases |s|
  {
    var i := IndexOf(s, sep);
    if i == -1 then [s]
    else
      var rest := Split(s[i + 1..], sep);
      JoinCons(s[..i], rest, sep);
      PiecesCons(s[..i], rest, sep);
      assert s == s[..i] + [sep] + s[i + 1..];
      [s[..i]] + rest
  }

  /** A separator-free piece, a separator, then a tail: the piece comes off first. */
  lemma SplitCons(p: Bytes, t: Bytes, sep: bv8)
    requires Excludes(p, sep)
    ensures Split(p + [sep] + t, sep) == [p] + Split(t, sep)
  {
    var s := p + [sep] + t;
    var i := IndexOf(s, sep);
    assert s[|p|] == sep;
    assert s[..|p|] == p;
    assert i == |p|;
    assert s[i + 1..] == t;
  }

  /** Splitting a join of separator-free pieces recovers exactly those pieces. */
  lemma {:induction false} SplitJoin(parts: seq<Bytes>, sep: bv8)
    requires |parts| >= 1
    requires PiecesExclude(parts, sep)
    ensures Split(Join(parts, sep), sep) == parts
    decreases |parts|
  {
    if |parts| == 1 {
      assert Excludes(parts[0], sep);
    } else {
      var p, rest := parts[0], parts[1..];
      assert parts == [p] + rest;
      assert Excludes(p, sep);
      assert PiecesExclude(rest, sep) by {
        forall i | 0 <= i < |rest| ensures Excludes(rest[i], sep) {
          assert rest[i] == parts[i + 1];
        }
      }
      JoinCons(p, rest, sep);
      SplitCons(p, Join(rest, sep), sep);
      SplitJoin(rest, sep);
    }
  }

  /** Number of occurrences of b in s. */
  function Count(s: Bytes, b: bv8): nat
    decreases |s|
  {
    if |s| == 0 then 0 else (if s[0] == b then 1 else 0) + Count(s[1..], b)
  }

  lemma {:induction false} CountAppend(a: Bytes, c: Bytes, b: bv8)
    ensures Count(a + c, b) == Count(a, b) + Count(c, b)
    decreases |a|
  {
    if |a| == 0 {
      assert a + c == c;
    } else {
      assert (a + c)[0] == a[0];
      assert (a + c)[1..] == a[1..] + c;
      CountAppend(a[1..], c, b);
    }
  }

  lemma {:induction false} CountAbsent(s: Bytes, b: bv8)
    requires Excludes(s, b)
    ensures Count(s, b) == 0
    decreases |s|
  {
    if |s| > 0 {
      CountAbsent(s[1..], b);
    }
  }

  /** The number of pieces is one more than the number of separators. */
  lemma {:induction false} SplitCount(s: Bytes, sep: bv8)
    ensures |Split(s, sep)| == Count(s, sep) + 1
    decreases |s|
  {
    var i := IndexOf(s, sep);
    if i != -1 {
      assert s == s[..i] + ([sep] + s[i + 1..]);
      CountAppend(s[..i], [sep] + s[i + 1..], sep);
      CountAbsent(s[..i], sep);
      assert ([sep] + s[i + 1..])[1..] == s[i + 1..];
      SplitCount(s[i + 1..], sep);
      assert Split(s, sep) == [s[..i]] + Split(s[i + 1..], sep);
    } else {
      CountAbsent(s, sep);
    }
  }
}
