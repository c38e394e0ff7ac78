/**
 * String helpers used by several parts of the model: prefix tests, splitting on one
 * separator character, joining, decimal rendering and parsing, and the lexicographic
 * order Rust's `String` uses as a `BTreeMap` key.
 */
module Text {
  import opened Wrappers

  /** `p` is a prefix of `s` (Rust `str::starts_with`). */
  predicate IsPrefix(p: string, s: string) {
    |p| <= |s| && s[..|p|] == p
  }

  /** Rust `str::strip_prefix`: the rest of `s` after `p`, or `None`. */
  function StripPrefix(s: string, p: string): (r: Option<string>)
    ensures r.Some? <==> IsPrefix(p, s)
    ensures r.Some? ==> p + r.value == s
  {
    if IsPrefix(p, s) then Some(s[|p|..]) else None
  }

  /** Position of the first occurrence of `c` in `s`. */
  function IndexOf(s: string, c: char): (i: nat)
    requires c in s
    ensures i < |s| && s[i] == c && c !in s[..i]
  {
    if s[0] == c then 0 else 1 + IndexOf(s[1..], c)
  }

  /**
   * Every piece of `s` between occurrences of `c`, empty pieces included
   * (Python `str.split(c)`, Rust `str::split(c)`): there is always at least one piece.
   */
  function Split(s: string, c: char): (r: seq<string>)
    ensures |r| >= 1
    ensures forall i :: 0 <= i < |r| ==> c !in r[i]
    decreases |s|
  {
    if c !in s then [s]
    else
      var i := IndexOf(s, c);
      [s[..i]] + Split(s[i + 1..], c)
  }

  /** Splitting at the first separator: the text before it, then the pieces of the rest. */
  lemma SplitAtFirst(s: string, c: char)
    requires c in s
    ensures Split(s, c) == [s[..IndexOf(s, c)]] + Split(s[IndexOf(s, c) + 1..], c)
  {
  }

  /** The first occurrence is the one position holding `c` with no `c` before it. */
  lemma IndexOfUnique(s: string, c: char, i: nat)
    requires i < |s| && s[i] == c && c !in s[..i]
    ensures IndexOf(s, c) == i
  {
  }

  /** A separator added at the end adds one empty piece at the end. */
  lemma SplitAppendSeparator(s: string, c: char)
    ensures Split(s + [c], c) == Split(s, c) + [""]
  {
    SplitAround(s, c, "");
    assert s + [c] + "" == s + [c];
    assert Split("", c) == [""];
  }

  /** Two texts joined at a separator split into the pieces of the first, then those of the second. */
  lemma {:induction false} SplitAround(s: string, c: char, t: string)
    ensures Split(s + [c] + t, c) == Split(s, c) + Split(t, c)
    decreases |s|
  {
    var u := s + [c] + t;
    if c in s {
      var i := IndexOf(s, c);
      assert u[..i] == s[..i] && u[i] == c;
      IndexOfUnique(u, c, i);
      SplitAtFirst(u, c);
      assert u[i + 1..] == s[i + 1..] + [c] + t;
      SplitAround(s[i + 1..], c, t);
      SplitAtFirst(s, c);
      PiecesAssoc([s[..i]], Split(s[i + 1..], c), Split(t, c));
    } else {
      assert u[..|s|] == s;
      IndexOfUnique(u, c, |s|);
      SplitAtFirst(u, c);
      assert u[|s| + 1..] == t;
    }
  }

  lemma PiecesAssoc(a: seq<string>, b: seq<string>, c: seq<string>)
    ensures a + (b + c) == a + b + c
  {
  }

  /** The pieces put back together with `c` between consecutive pieces. */
  function Join(pieces: seq<string>, c: char): string
  {
    if |pieces| == 0 then ""
    else if |pieces| == 1 then pieces[0]
    else pieces[0] + [c] + Join(pieces[1..], c)
  }

  /** Joining the pieces of a split gives back the original string. */
  lemma {:induction false} JoinSplit(s: string, c: char)
    ensures Join(Split(s, c), c) == s
    decreases |s|
  {
    if c in s {
      var i := IndexOf(s, c);
      var rest := Split(s[i + 1..], c);
      var pieces := Split(s, c);
      SplitAtFirst(s, c);
      assert pieces[1..] == rest;
      assert Join(pieces, c) == s[..i] + [c] + Join(rest, c);
      JoinSplit(s[i + 1..], c);
      assert s == s[..i] + [c] + s[i + 1..];
    }
  }

  /** Splitting a join of separator-free pieces gives back the pieces. */
  lemma {:induction false} SplitJoin(pieces: seq<string>, c: char)
    requires |pieces| >= 1
    requires forall i :: 0 <= i < |pieces| ==> c !in pieces[i]
    ensures Split(Join(pieces, c), c) == pieces
    decreases |pieces|
  {
    if |pieces| > 1 {
      var tail := pieces[1..];
      assert forall i :: 0 <= i < |tail| ==> c !in tail[i] by {
        forall i | 0 <= i < |tail| ensures c !in tail[i] {
          assert tail[i] == pieces[i + 1];
        }
      }
      SplitJoin(tail, c);
      assert pieces == [pieces[0]] + tail;
      SplitJoinStep(pieces[0], tail, c);
    }
  }

  lemma SplitJoinStep(first: string, tail: seq<string>, c: char)
    requires c !in first && |tail| >= 1
    requires Split(Join(tail, c), c) == tail
    ensures Split(Join([first] + tail, c), c) == [first] + tail
  {
    var rest := Join(tail, c);
    assert ([first] + tail)[1..] == tail;
    assert Join([first] + tail, c) == first + [c] + rest;
    SplitAround(first, c, rest);
    assert Split(first, c) == [first];
  }

  /** Number of occurrences of `c` in `s`. */
  function Count(s: string, c: char): nat
  {
    if s == [] then 0 else (if s[0] == c then 1 else 0) + Count(s[1..], c)
  }

  lemma {:induction false} CountAppend(a: string, b: string, c: char)
    ensures Count(a + b, c) == Count(a, c) + Count(b, c)
  {
    if a == [] {
      assert a + b == b;
    } else {
      assert (a + b)[1..] == a[1..] + b;
      CountAppend(a[1..], b, c);
    }
  }

  /** `s` with every `c` removed (Python `str.replace(c, '')`). */
  function RemoveAll(s: string, c: char): (r: string)
    ensures c !in r
    ensures |r| == |s| - Count(s, c)
  {
    if s == [] then ""
    else if s[0] == c then RemoveAll(s[1..], c)
    else [s[0]] + RemoveAll(s[1..], c)
  }

  /** `s` written `n` times in a row. */
  function Repeat(s: string, n: nat): (r: string)
    ensures |r| == n * |s|
  {
    if n == 0 then "" else Repeat(s, n - 1) + s
  }

  /* ---------------------------------------------------------------- */
  /* Decimal numbers                                                   */

  predicate IsDigit(ch: char) {
    '0' <= ch <= '9'
  }

  function DigitChar(d: nat): (ch: char)
    requires d < 10
    ensures IsDigit(ch)
  {
    ['0', '1', '2', '3', '4', '5', '6', '7', '8', '9'][d]
  }

  function DigitValue(ch: char): (d: nat)
    requires IsDigit(ch)
    ensures d < 10
  {
    (ch as int - '0' as int) as nat
  }

  /** Rust `format!("{}", n)` / Python `str(n)` for a natural number. */
  function NatToString(n: nat): (r: string)
    ensures |r| >= 1
    ensures forall i :: 0 <= i < |r| ==> IsDigit(r[i])
  {
    if n < 10 then [DigitChar(n)] else NatToString(n / 10) + [DigitChar(n % 10)]
  }

  /** The value of a string of decimal digits. */
  function DigitsValue(s: string): nat
    requires forall i :: 0 <= i < |s| ==> IsDigit(s[i])
  {
    if s == [] then 0 else 10 * DigitsValue(s[..|s| - 1]) + DigitValue(s[|s| - 1])
  }

  lemma {:induction false} DigitsValueOfNatToString(n: nat)
    ensures DigitsValue(NatToString(n)) == n
  {
    var s := NatToString(n);
    if n >= 10 {
      assert s[..|s| - 1] == NatToString(n / 10);
      DigitsValueOfNatToString(n / 10);
    }
  }

  /* ---------------------------------------------------------------- */
  /* The order of strings as `BTreeMap` keys                           */

  /**
   * `a` sorts strictly before `b`: compared character by character, a proper prefix
   * coming first (Rust `Ord for str`, byte-wise on UTF-8, which orders like code points).
   */
  predicate Less(a: string, b: string)
    decreases |a|
  {
    if a == [] then b != []
    else if b == [] then false
    else a[0] < b[0] || (a[0] == b[0] && Less(a[1..], b[1..]))
  }

  lemma {:induction false} LessIrreflexive(a: string)
    ensures !Less(a, a)
    decreases |a|
  {
    if a != [] {
      LessIrreflexive(a[1..]);
    }
  }

  lemma {:induction false} LessTransitive(a: string, b: string, c: string)
    requires Less(a, b) && Less(b, c)
    ensures Less(a, c)
    decreases |a|
  {
    if a != [] && a[0] == b[0] && b[0] == c[0] {
      LessTransitive(a[1..], b[1..], c[1..]);
    }
  }

  lemma {:induction false} LessTotal(a: string, b: string)
    ensures a == b || Less(a, b) || Less(b, a)
    decreases |a|
  {
    if a != [] && b != [] && a[0] == b[0] {
      LessTotal(a[1..], b[1..]);
      if a[1..] == b[1..] {
        assert a == [a[0]] + a[1..] && b == [b[0]] + b[1..];
      }
    }
  }

  lemma LessAsymmetric(a: string, b: string)
    requires Less(a, b)
    ensures !Less(b, a)
  {
    if Less(b, a) {
      LessTransitive(a, b, a);
      LessIrreflexive(a);
    }
  }

  /** Keys listed in strictly increasing order: the iteration order of a `BTreeMap`. */
  predicate StrictlyIncreasing(keys: seq<string>) {
    forall i, j :: 0 <= i < j < |keys| ==> Less(keys[i], keys[j])
  }
}
