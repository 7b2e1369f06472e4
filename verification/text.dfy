/** The JavaScript string primitives the pages rely on: white space, `trim`,
    `split` on one character and `join`. */
module Text {

  /** JavaScript's white space and line terminators: the characters `String.prototype.trim`
      strips and the regular-expression class `\s` matches. */
  predicate IsSpace(c: char) {
    || c == ' '
    || '\U{9}' <= c <= '\U{D}'
    || c == '\U{A0}' || c == '\U{1680}'
    || '\U{2000}' <= c <= '\U{200A}'
    || c == '\U{2028}' || c == '\U{2029}' || c == '\U{202F}' || c == '\U{205F}'
    || c == '\U{3000}' || c == '\U{FEFF}'
  }

  /** Every character is white space. */
  predicate Blank(s: string) {
    forall i | 0 <= i < |s| :: IsSpace(s[i])
  }

  /** No character is white space: `s` matches `^\S*$`. */
  predicate NoSpace(s: string) {
    forall i | 0 <= i < |s| :: !IsSpace(s[i])
  }

  /** `s` neither begins nor ends with white space. */
  predicate Trimmed(s: string) {
    s == [] || (!IsSpace(s[0]) && !IsSpace(s[|s| - 1]))
  }

  /** The end of the run of white space that starts at `lo`. */
  function SpaceRunFrom(s: string, lo: nat): (k: nat)
    requires lo <= |s|
    ensures lo <= k <= |s|
    ensures forall j | lo <= j < k :: IsSpace(s[j])
    ensures k < |s| ==> !IsSpace(s[k])
    decreases |s| - lo
  {
    if lo == |s| || !IsSpace(s[lo]) then lo else SpaceRunFrom(s, lo + 1)
  }

  /** The start of the run of white space that ends at `hi`, not going below `lo`. */
  function SpaceRunBefore(s: string, lo: nat, hi: nat): (k: nat)
    requires lo <= hi <= |s|
    ensures lo <= k <= hi
    ensures forall j | k <= j < hi :: IsSpace(s[j])
    ensures k > lo ==> !IsSpace(s[k - 1])
    decreases hi
  {
    if hi == lo || !IsSpace(s[hi - 1]) then hi else SpaceRunBefore(s, lo, hi - 1)
  }

  /** `String.prototype.trim`: `s` without leading and trailing white space. */
  function Trim(s: string): (r: string)
    ensures Trimmed(r)
    ensures r == [] <==> Blank(s)
    ensures forall i | 0 <= i < |r| :: r[i] in s
  {
    var a := SpaceRunFrom(s, 0);
    var b := SpaceRunBefore(s, a, |s|);
    var r := s[a..b];
    assert Trimmed(r) by {
      if a < b {
        assert r[0] == s[a] && r[|r| - 1] == s[b - 1];
      }
    }
    assert r == [] <==> Blank(s) by {
      if a == b {
        assert forall j | 0 <= j < |s| :: (j < a || b <= j) && IsSpace(s[j]);
      } else {
        assert !IsSpace(s[a]);
      }
    }
    assert forall i | 0 <= i < |r| :: r[i] in s by {
      assert forall i | 0 <= i < |r| :: r[i] == s[a + i];
    }
    r
  }

  /** A white-space run is determined by where it starts and the first non-space after it. */
  lemma SpaceRunFromAt(s: string, lo: nat, k: nat)
    requires lo <= k <= |s|
    requires forall j | lo <= j < k :: IsSpace(s[j])
    requires k < |s| ==> !IsSpace(s[k])
    ensures SpaceRunFrom(s, lo) == k
  {
  }

  /** A white-space run is determined by where it ends and the last non-space before it. */
  lemma SpaceRunBeforeAt(s: string, lo: nat, hi: nat, k: nat)
    requires lo <= k <= hi <= |s|
    requires forall j | k <= j < hi :: IsSpace(s[j])
    requires k > lo ==> !IsSpace(s[k - 1])
    ensures SpaceRunBefore(s, lo, hi) == k
  {
  }

  /** Trimming recovers a non-empty trimmed string from any white-space padding. */
  lemma TrimOfPadded(a: string, r: string, b: string)
    requires Blank(a) && Blank(b) && r != [] && Trimmed(r)
    ensures Trim(a + r + b) == r
  {
    var s := a + r + b;
    var i, j := |a|, |a| + |r|;
    assert forall k | 0 <= k < i :: s[k] == a[k];
    assert s[i] == r[0];
    SpaceRunFromAt(s, 0, i);
    assert forall k | j <= k < |s| :: s[k] == b[k - j];
    assert s[j - 1] == r[|r| - 1];
    SpaceRunBeforeAt(s, i, |s|, j);
    assert s[i..j] == r;
  }

  /** `s` is `t` with only white space added at either end. */
  ghost predicate PaddedBy(s: string, t: string) {
    exists a, b :: Blank(a) && Blank(b) && s == a + t + b
  }

  /** A slice with white space on both sides is the string minus that padding. */
  lemma PaddedSlice(s: string, i: nat, j: nat)
    requires i <= j <= |s|
    requires forall k | 0 <= k < i :: IsSpace(s[k])
    requires forall k | j <= k < |s| :: IsSpace(s[k])
    ensures PaddedBy(s, s[i..j])
  {
    var a, b := s[..i], s[j..];
    assert s == a + s[i..j] + b;
    assert forall k | 0 <= k < |a| :: a[k] == s[k];
    assert forall k | 0 <= k < |b| :: b[k] == s[j + k];
    assert Blank(a) && Blank(b);
  }

  /** Trimming removes white space from the ends and nothing else. */
  lemma TrimIsPaddedSlice(s: string)
    ensures PaddedBy(s, Trim(s))
  {
    var i := SpaceRunFrom(s, 0);
    PaddedSlice(s, i, SpaceRunBefore(s, i, |s|));
  }

  /** White space in front of a blank string leaves it blank. */
  lemma BlankCons(c: char, a: string)
    requires IsSpace(c) && Blank(a)
    ensures Blank([c] + a)
  {
    assert forall i | 1 <= i < |a| + 1 :: ([c] + a)[i] == a[i - 1];
  }

  /** Putting a character in front of a padded string lengthens its left padding. */
  lemma ConsPadded(c: char, a: string, t: string, b: string)
    ensures [c] + (a + t + b) == ([c] + a) + t + b
  {
  }

  /** A leading white-space character never survives trimming. */
  lemma TrimDropsLeadingSpace(s: string)
    requires s != [] && IsSpace(s[0])
    ensures Trim(s) == Trim(s[1..])
  {
    var c, x := s[0], s[1..];
    assert s == [c] + x;
    TrimIsPaddedSlice(x);
    var a, b :| Blank(a) && Blank(b) && x == a + Trim(x) + b;
    if Trim(x) == [] {
      BlankCons(c, x);
    } else {
      BlankCons(c, a);
      ConsPadded(c, a, Trim(x), b);
      TrimOfPadded([c] + a, Trim(x), b);
    }
  }

  /** How many UTF-16 code units JavaScript stores for `c`: two for a character outside the
      Basic Multilingual Plane (a surrogate pair), one otherwise. */
  function Utf16Units(c: char): (n: nat)
    ensures n == 1 || n == 2
    ensures n == 2 <==> c >= '\U{10000}'
  {
    if c >= '\U{10000}' then 2 else 1
  }

  /** JavaScript's `length` of a string: its UTF-16 code units. */
  function Utf16Length(s: string): (n: nat)
    ensures |s| <= n <= 2 * |s|
    ensures (forall i | 0 <= i < |s| :: s[i] < '\U{10000}') ==> n == |s|
    ensures (forall i | 0 <= i < |s| :: s[i] >= '\U{10000}') ==> n == 2 * |s|
  {
    if s == [] then 0 else Utf16Units(s[0]) + Utf16Length(s[1..])
  }

  /** Code units add up over concatenation. */
  lemma {:induction false} Utf16LengthAppend(a: string, b: string)
    ensures Utf16Length(a + b) == Utf16Length(a) + Utf16Length(b)
  {
    if a == [] {
      assert a + b == b;
    } else {
      assert (a + b)[1..] == a[1..] + b;
      Utf16LengthAppend(a[1..], b);
    }
  }

  /** The number of characters in all the pieces together. */
  function TotalLength(pieces: seq<string>): nat {
    if pieces == [] then 0 else |pieces[0]| + TotalLength(pieces[1..])
  }

  /** `pieces.join(sep)`: the pieces in order, one separator between neighbours. */
  function Join(pieces: seq<string>, sep: string): (r: string)
    ensures |pieces| == 0 ==> r == []
    ensures |pieces| >= 1 ==> pieces[0] <= r
    ensures |pieces| >= 1 ==> |r| == TotalLength(pieces) + (|pieces| - 1) * |sep|
  {
    if |pieces| == 0 then []
    else if |pieces| == 1 then pieces[0]
    else
      var rest := Join(pieces[1..], sep);
      assert (|pieces| - 1) * |sep| == (|pieces| - 2) * |sep| + |sep|;
      pieces[0] + sep + rest
  }

  /** `s.split(sep)` for a one-character separator: the maximal separator-free
      pieces of `s`, left to right; there is always at least one, possibly empty. */
  function Split(s: string, sep: char): (r: seq<string>)
    ensures |r| >= 1
    ensures forall i | 0 <= i < |r| :: sep !in r[i]
  {
    if s == [] then [[]]
    else
      var rest := Split(s[1..], sep);
      if s[0] == sep then [[]] + rest
      else
        var r := [[s[0]] + rest[0]] + rest[1..];
        assert r[1..] == rest[1..];
        r
  }

  /** Joining the pieces with the separator gives back the split string. */
  lemma {:induction false} JoinSplit(s: string, sep: char)
    ensures Join(Split(s, sep), [sep]) == s
  {
    if s != [] {
      JoinSplit(s[1..], sep);
      var rest := Split(s[1..], sep);
      assert s == [s[0]] + s[1..];
      if s[0] != sep {
        var r := [[s[0]] + rest[0]] + rest[1..];
        assert r[1..] == rest[1..];
        if |rest| > 1 {
          assert Join(rest, [sep]) == rest[0] + [sep] + Join(rest[1..], [sep]);
        }
      }
    }
  }

  /** Splitting a string with a known first character. */
  lemma SplitCons(c: char, t: string, sep: char)
    ensures Split([c] + t, sep) ==
      if c == sep then [[]] + Split(t, sep)
      else [[c] + Split(t, sep)[0]] + Split(t, sep)[1..]
  {
    assert ([c] + t)[1..] == t;
  }

  /** Extending the first piece of a concatenation extends the first piece of its left part. */
  lemma ExtendFirstPiece(c: char, sa: seq<string>, sb: seq<string>)
    requires |sa| >= 1
    ensures [[c] + (sa + sb)[0]] + (sa + sb)[1..] == ([[c] + sa[0]] + sa[1..]) + sb
  {
    assert (sa + sb)[0] == sa[0];
    assert (sa + sb)[1..] == sa[1..] + sb;
  }

  /** A separator splits the pieces on its left from those on its right. */
  lemma {:induction false} SplitAround(a: string, sep: char, b: string)
    ensures Split(a + [sep] + b, sep) == Split(a, sep) + Split(b, sep)
  {
    if a == [] {
      assert a + [sep] + b == [sep] + b;
      SplitCons(sep, b, sep);
    } else {
      var c, a' := a[0], a[1..];
      var t := a' + [sep] + b;
      assert a + [sep] + b == [c] + t;
      assert a == [c] + a';
      var sa, sb := Split(a', sep), Split(b, sep);
      assert Split(t, sep) == sa + sb by {
        SplitAround(a', sep, b);
      }
      assert Split(a + [sep] + b, sep) == Split([c] + t, sep);
      assert Split(a, sep) == Split([c] + a', sep);
      SplitCons(c, t, sep);
      SplitCons(c, a', sep);
      if c == sep {
        assert Split(a, sep) + sb == [[]] + (sa + sb);
      } else {
        ExtendFirstPiece(c, sa, sb);
      }
    }
  }

  /** A separator-free string is a single piece. */
  lemma {:induction false} SplitWithoutSeparator(a: string, sep: char)
    requires sep !in a
    ensures Split(a, sep) == [a]
  {
    if a != [] {
      SplitWithoutSeparator(a[1..], sep);
      assert a == [a[0]] + a[1..];
    }
  }

  /** Splitting undoes joining when no piece contains the separator. */
  lemma {:induction false} SplitJoin(pieces: seq<string>, sep: char)
    requires |pieces| >= 1
    requires forall i | 0 <= i < |pieces| :: sep !in pieces[i]
    ensures Split(Join(pieces, [sep]), sep) == pieces
  {
    if |pieces| == 1 {
      SplitWithoutSeparator(pieces[0], sep);
    } else {
      SplitJoin(pieces[1..], sep);
      SplitAround(pieces[0], sep, Join(pieces[1..], [sep]));
      SplitWithoutSeparator(pieces[0], sep);
      assert pieces == [pieces[0]] + pieces[1..];
    }
  }
}
