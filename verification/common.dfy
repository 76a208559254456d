/** Shared building blocks: optional values, results with errors, and the
    Python list operations (negative-index slicing, strided slicing, zip)
    that the modelled code relies on. */
module Common {

  datatype Option<+T> = None | Some(value: T)

  /** A value or the exception the Python code raises instead. */
  datatype Result<+T, +E> = Ok(value: T) | Err(error: E)

  /** Python's normalisation of a slice bound `i` against a list of length `n`:
      negative bounds count from the end, and the result is clamped to [0, n]. */
  function SliceBound(i: int, n: nat): (k: nat)
    ensures k <= n
    ensures 0 <= i <= n ==> k == i
    ensures i < 0 && 0 <= n + i ==> k == n + i
    ensures n + i < 0 ==> k == 0
    ensures n < i ==> k == n
  {
    if i < 0 then (if i + n < 0 then 0 else i + n)
    else if i > n then n
    else i
  }

  lemma MulSucc(k: int, d: int)
    ensures (k + 1) * d == k * d + d
  {
  }

  /** The elements s[lo], s[lo + step], ... strictly below index hi. */
  function StrideFrom<T>(s: seq<T>, lo: nat, hi: nat, step: nat): (r: seq<T>)
    requires hi <= |s| && step > 0
    ensures |r| == 0 <==> lo >= hi
    decreases hi - lo
  {
    if lo >= hi then [] else [s[lo]] + StrideFrom(s, lo + step, hi, step)
  }

  /** The stride's length and elements: it holds s[lo + k * step] for every
      k whose position lies below hi, and nothing else. */
  lemma {:induction false} StrideAt<T>(s: seq<T>, lo: nat, hi: nat, step: nat)
    requires hi <= |s| && step > 0
    ensures var r := StrideFrom(s, lo, hi, step);
      && (lo < hi ==> lo + (|r| - 1) * step < hi <= lo + |r| * step)
      && forall k :: 0 <= k < |r| ==> lo + k * step < hi && r[k] == s[lo + k * step]
    decreases hi - lo
  {
    if lo < hi {
      var r := StrideFrom(s, lo, hi, step);
      var rest := StrideFrom(s, lo + step, hi, step);
      StrideAt(s, lo + step, hi, step);
      assert r == [s[lo]] + rest;
      if |rest| > 0 {
        MulSucc(|rest| - 1, step);
        MulSucc(|rest|, step);
      }
      forall k | 1 <= k < |r| ensures lo + k * step < hi && r[k] == s[lo + k * step] {
        assert r[k] == rest[k - 1];
        MulSucc(k - 1, step);
      }
    }
  }

  /** Every other element from lo to the end: s[lo], s[lo + 2], ... */
  lemma EveryOther<T>(s: seq<T>, lo: nat)
    requires lo <= |s|
    ensures var r := StrideFrom(s, lo, |s|, 2);
      && |r| == (|s| - lo + 1) / 2
      && forall k :: 0 <= k < |r| ==> lo + 2 * k < |s| && r[k] == s[lo + 2 * k]
  {
    StrideAt(s, lo, |s|, 2);
  }

  /** Python's strided slice s[start:stop:step] for a positive step. */
  function Stride<T>(s: seq<T>, start: int, stop: int, step: nat): (r: seq<T>)
    requires step > 0
  {
    StrideFrom(s, SliceBound(start, |s|), SliceBound(stop, |s|), step)
  }

  /** Python's slice s[start:stop]. */
  function Slice<T>(s: seq<T>, start: int, stop: int): (r: seq<T>)
  {
    var lo := SliceBound(start, |s|);
    var hi := SliceBound(stop, |s|);
    if lo < hi then s[lo..hi] else []
  }

  function Min(a: int, b: int): int
  {
    if a < b then a else b
  }

  /** Python's zip of two lists: pairs up to the shorter length. */
  function Zip<A, B>(a: seq<A>, b: seq<B>): (r: seq<(A, B)>)
    ensures |r| == Min(|a|, |b|)
    ensures forall k :: 0 <= k < |r| ==> r[k] == (a[k], b[k])
  {
    seq(Min(|a|, |b|), k requires 0 <= k < Min(|a|, |b|) => (a[k], b[k]))
  }

  /** Python's zip of four lists. */
  function Zip4<A, B, C, D>(a: seq<A>, b: seq<B>, c: seq<C>, d: seq<D>): (r: seq<(A, B, C, D)>)
    ensures |r| == Min(Min(|a|, |b|), Min(|c|, |d|))
    ensures forall k :: 0 <= k < |r| ==> r[k] == (a[k], b[k], c[k], d[k])
  {
    var n := Min(Min(|a|, |b|), Min(|c|, |d|));
    seq(n, k requires 0 <= k < n => (a[k], b[k], c[k], d[k]))
  }
  /** g(x) for the elements x of s, concatenated in order. */
  function Concat<T, U>(s: seq<T>, g: T -> seq<U>): seq<U>
  {
    if s == [] then []
    else
      var n := |s| - 1;
      Concat(s[..n], g) + g(s[n])
  }

  /** Concatenating over two lists one after the other. */
  lemma {:induction false} ConcatAppend<T, U>(a: seq<T>, b: seq<T>, g: T -> seq<U>)
    ensures Concat(a + b, g) == Concat(a, g) + Concat(b, g)
    decreases |b|
  {
    var ab := a + b;
    if b == [] {
      assert ab == a;
    } else {
      var n := |b| - 1;
      calc {
        Concat(ab, g);
        { assert ab[..|ab| - 1] == a + b[..n] && ab[|ab| - 1] == b[n]; }
        Concat(a + b[..n], g) + g(b[n]);
        { ConcatAppend(a, b[..n], g); }
        Concat(a, g) + Concat(b[..n], g) + g(b[n]);
        Concat(a, g) + (Concat(b[..n], g) + g(b[n]));
        Concat(a, g) + Concat(b, g);
      }
    }
  }

  /** `a` is `b` with some elements left out: the elements of `a` appear in
      `b` in the same order. */
  predicate IsSubsequence<T(==)>(a: seq<T>, b: seq<T>)
    decreases |b|
  {
    a == [] || (b != [] && ((a[0] == b[0] && IsSubsequence(a[1..], b[1..])) || IsSubsequence(a, b[1..])))
  }

  lemma {:induction false} SubsequenceReflexive<T>(a: seq<T>)
    ensures IsSubsequence(a, a)
    decreases |a|
  {
    if a != [] {
      SubsequenceReflexive(a[1..]);
    }
  }

  lemma {:induction false} SubsequenceTransitive<T>(a: seq<T>, b: seq<T>, c: seq<T>)
    requires IsSubsequence(a, b) && IsSubsequence(b, c)
    ensures IsSubsequence(a, c)
    decreases |c|
  {
    if a != [] {
      if b[0] == c[0] && IsSubsequence(b[1..], c[1..]) {
        if a[0] == b[0] && IsSubsequence(a[1..], b[1..]) {
          SubsequenceTransitive(a[1..], b[1..], c[1..]);
        } else {
          SubsequenceTransitive(a, b[1..], c[1..]);
        }
      } else {
        SubsequenceTransitive(a, b, c[1..]);
      }
    }
  }

  /** Every element of a subsequence is an element of the sequence. */
  lemma {:induction false} SubsequenceMembers<T>(a: seq<T>, b: seq<T>)
    requires IsSubsequence(a, b)
    ensures forall x :: x in a ==> x in b
    decreases |b|
  {
    if a != [] {
      if a[0] == b[0] && IsSubsequence(a[1..], b[1..]) {
        SubsequenceMembers(a[1..], b[1..]);
        assert forall x :: x in a ==> x == a[0] || x in a[1..];
      } else {
        SubsequenceMembers(a, b[1..]);
      }
    }
  }

  /** A subsequence of a sequence ordered by `key` is ordered by `key`. */
  lemma {:induction false} SubsequenceOrdered<T>(a: seq<T>, b: seq<T>, key: T -> int)
    requires IsSubsequence(a, b)
    requires forall i, j :: 0 <= i < j < |b| ==> key(b[i]) <= key(b[j])
    ensures forall i, j :: 0 <= i < j < |a| ==> key(a[i]) <= key(a[j])
    decreases |b|
  {
    if a != [] {
      var tail := b[1..];
      assert forall i, j :: 0 <= i < j < |tail| ==> key(tail[i]) <= key(tail[j]) by {
        forall i, j | 0 <= i < j < |tail| ensures key(tail[i]) <= key(tail[j]) {
          assert tail[i] == b[i + 1] && tail[j] == b[j + 1];
        }
      }
      if a[0] == b[0] && IsSubsequence(a[1..], tail) {
        SubsequenceOrdered(a[1..], tail, key);
        SubsequenceMembers(a[1..], tail);
        forall i, j | 0 <= i < j < |a| ensures key(a[i]) <= key(a[j]) {
          assert a[j] == a[1..][j - 1];
          if i == 0 {
            assert a[j] in tail;
            var m :| 0 <= m < |tail| && tail[m] == a[j];
            assert tail[m] == b[m + 1];
          } else {
            assert a[i] == a[1..][i - 1];
          }
        }
      } else {
        SubsequenceOrdered(a, tail, key);
      }
    }
  }

  /** Python's str.split with an explicit one-character separator: every
      occurrence splits, so empty pieces are kept and there is always at
      least one piece. */
  function Split(s: string, sep: char): (r: seq<string>)
    ensures |r| >= 1
    ensures forall k :: 0 <= k < |r| ==> sep !in r[k]
    decreases |s|
  {
    if s == [] then [""]
    else
      var rest := Split(s[1..], sep);
      if s[0] == sep then [""] + rest
      else [[s[0]] + rest[0]] + rest[1..]
  }

  /** Python's list(map(float, tokens)) with `number` standing for float():
      all the numbers, or the first token float() rejects. */
  function ParseNumbers(tokens: seq<string>, number: string -> Option<real>): (r: Result<seq<real>, string>)
    ensures r.Ok? <==> forall k :: 0 <= k < |tokens| ==> number(tokens[k]).Some?
    ensures r.Ok? ==> |r.value| == |tokens| && forall k :: 0 <= k < |tokens| ==> number(tokens[k]) == Some(r.value[k])
    ensures r.Err? ==> exists k :: 0 <= k < |tokens| && number(tokens[k]).None? && r.error == tokens[k]
  {
    if tokens == [] then Ok([])
    else
      match number(tokens[0])
      case None => Err(tokens[0])
      case Some(x) =>
        match ParseNumbers(tokens[1..], number)
        case Err(e) => Err(e)
        case Ok(rest) => Ok([x] + rest)
  }

  /** The token reported is the first one that is not a number. */
  lemma {:induction false} ParseNumbersFirstFailure(tokens: seq<string>, number: string -> Option<real>, i: nat)
    requires i < |tokens| && number(tokens[i]).None?
    requires forall k :: 0 <= k < i ==> number(tokens[k]).Some?
    ensures ParseNumbers(tokens, number) == Err(tokens[i])
  {
    if i > 0 {
      ParseNumbersFirstFailure(tokens[1..], number, i - 1);
    }
  }

  /** Python's sep.join(parts) for a one-character separator. */
  function JoinOn(parts: seq<string>, sep: char): (r: string)
    decreases |parts|
  {
    if parts == [] then ""
    else if |parts| == 1 then parts[0]
    else parts[0] + [sep] + JoinOn(parts[1..], sep)
  }

  /** Joining the pieces of a split with the same separator gives back the
      original text. */
  lemma {:induction false} SplitJoin(s: string, sep: char)
    ensures JoinOn(Split(s, sep), sep) == s
    decreases |s|
  {
    if s != [] {
      var rest := Split(s[1..], sep);
      SplitJoin(s[1..], sep);
      if s[0] == sep {
        assert Split(s, sep) == [""] + rest;
        assert ([""] + rest)[1..] == rest;
      } else {
        var r := Split(s, sep);
        assert r == [[s[0]] + rest[0]] + rest[1..];
        if |rest| == 1 {
          assert JoinOn(r, sep) == [s[0]] + rest[0];
        } else {
          assert r[1..] == rest[1..];
          assert JoinOn(rest, sep) == rest[0] + [sep] + JoinOn(rest[1..], sep);
        }
      }
    }
  }
}
