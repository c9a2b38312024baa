/** The two string operations the quiz applies to answers before comparing
    them: JavaScript's `toLowerCase` and `trim`. */
module Text {

  /** The code points `String.prototype.trim` removes: the ECMAScript
      WhiteSpace set (tab, vertical tab, form feed, space, no-break space,
      byte order mark and every other space separator) and the LineTerminator
      set (line feed, carriage return, line and paragraph separators). */
  predicate IsSpace(c: char) {
    || c == '\t' || c == '\n' || c == '\U{000B}' || c == '\U{000C}' || c == '\r'
    || c == ' ' || c == '\U{00A0}' || c == '\U{1680}'
    || ('\U{2000}' <= c <= '\U{200A}')
    || c == '\U{2028}' || c == '\U{2029}' || c == '\U{202F}' || c == '\U{205F}'
    || c == '\U{3000}' || c == '\U{FEFF}'
  }

  /** Lower-casing of one character: the ASCII capitals and the Latin-1
      capitals (U+00C0 to U+00DE except the multiplication sign) move down
      by 0x20; every other character is left alone. */
  function LowerChar(c: char): (r: char)
    ensures IsSpace(r) <==> IsSpace(c)
    ensures !('A' <= r <= 'Z')
  {
    if 'A' <= c <= 'Z' || ('\U{00C0}' <= c <= '\U{00DE}' && c != '\U{00D7}')
    then (c as int + 0x20) as char
    else c
  }

  /** `s.toLowerCase()`, character by character. */
  function Lower(s: string): (r: string)
    ensures |r| == |s|
    ensures forall i :: 0 <= i < |s| ==> r[i] == LowerChar(s[i])
  {
    seq(|s|, i requires 0 <= i < |s| => LowerChar(s[i]))
  }

  /** Drops the leading white space: the result is a suffix of `s`, everything
      cut off is white space, and the result does not start with any. */
  function TrimStart(s: string): (r: string)
    ensures |r| <= |s| && r == s[|s| - |r|..]
    ensures forall k :: 0 <= k < |s| - |r| ==> IsSpace(s[k])
    ensures r != [] ==> !IsSpace(r[0])
    decreases |s|
  {
    if s != [] && IsSpace(s[0]) then TrimStart(s[1..]) else s
  }

  /** Drops the trailing white space: the result is a prefix of `s`, everything
      cut off is white space, and the result does not end with any. */
  function TrimEnd(s: string): (r: string)
    ensures |r| <= |s| && r == s[..|r|]
    ensures forall k :: |r| <= k < |s| ==> IsSpace(s[k])
    ensures r != [] ==> !IsSpace(r[|r| - 1])
    decreases |s|
  {
    if s != [] && IsSpace(s[|s| - 1]) then TrimEnd(s[..|s| - 1]) else s
  }

  /** `s.trim()`. It never lengthens `s`; its shape is stated by
      `TrimSplits` and `TrimEmpty`, kept out of this contract so that the
      white-space test is not unfolded wherever an answer is compared. */
  function Trim(s: string): (r: string)
    ensures |r| <= |s|
  {
    TrimEnd(TrimStart(s))
  }

  /** `trim` returns the empty string exactly for an all-white-space input. */
  lemma TrimEmpty(s: string)
    ensures Trim(s) == [] <==> AllSpace(s)
  {
    EmptyTrim(s, TrimStart(s));
  }

  lemma EmptyTrim(s: string, t: string)
    requires t == TrimStart(s)
    ensures TrimEnd(t) == [] <==> AllSpace(s)
  {
  }

  /** The normal form an answer is compared in: `s.toLowerCase().trim()`.
      It is never longer than `s`; `NormalForm` states its shape. */
  function Normalize(s: string): (r: string)
    ensures |r| <= |s|
  {
    Trim(Lower(s))
  }

  /** The normal form has no white space at either end and no ASCII capital,
      and it is empty exactly for a blank answer. */
  lemma NormalForm(s: string)
    ensures Trimmed(Normalize(s))
    ensures forall i :: 0 <= i < |Normalize(s)| ==> !('A' <= Normalize(s)[i] <= 'Z')
    ensures Normalize(s) == [] <==> AllSpace(s)
  {
    var l := Lower(s);
    TrimIsTrimmed(l);
    TrimIsSlice(l);
    LowerKeepsSpace(s);
    TrimEmpty(l);
  }

  lemma LowerKeepsSpace(s: string)
    ensures AllSpace(Lower(s)) <==> AllSpace(s)
  {
    var l := Lower(s);
    if AllSpace(s) {
      forall k | 0 <= k < |l| ensures IsSpace(l[k]) {
        assert l[k] == LowerChar(s[k]);
      }
    }
    if AllSpace(l) {
      forall k | 0 <= k < |s| ensures IsSpace(s[k]) {
        assert IsSpace(l[k]);
      }
    }
  }

  /** No white space at either end. */
  predicate Trimmed(s: string) {
    s == [] || (!IsSpace(s[0]) && !IsSpace(s[|s| - 1]))
  }

  /** A string made only of white space. */
  predicate AllSpace(s: string) {
    forall k :: 0 <= k < |s| ==> IsSpace(s[k])
  }

  /** `trim` is characterised by its result alone: whenever `s` splits into
      white space, a trimmed middle and white space, `Trim(s)` is that middle. */
  lemma {:induction false} TrimOfPadded(pre: string, mid: string, post: string)
    requires AllSpace(pre) && AllSpace(post) && Trimmed(mid)
    ensures Trim(pre + mid + post) == mid
  {
    var s := pre + mid + post;
    if mid == [] {
      assert s == (pre + post) + [];
      TrimStartOfPadded(pre + post, []);
      assert TrimEnd([]) == [];
    } else {
      assert s == pre + (mid + post);
      TrimStartOfPadded(pre, mid + post);
      TrimEndOfPadded(mid, post);
    }
  }

  lemma {:induction false} TrimStartOfPadded(pre: string, rest: string)
    requires AllSpace(pre)
    requires rest == [] || !IsSpace(rest[0])
    ensures TrimStart(pre + rest) == rest
    decreases |pre|
  {
    if pre == [] {
      assert pre + rest == rest;
    } else {
      assert (pre + rest)[1..] == pre[1..] + rest;
      TrimStartOfPadded(pre[1..], rest);
    }
  }

  lemma {:induction false} TrimEndOfPadded(rest: string, post: string)
    requires AllSpace(post)
    requires rest == [] || !IsSpace(rest[|rest| - 1])
    ensures TrimEnd(rest + post) == rest
    decreases |post|
  {
    if post == [] {
      assert rest + post == rest;
    } else {
      var s := rest + post;
      assert s[..|s| - 1] == rest + post[..|post| - 1];
      TrimEndOfPadded(rest, post[..|post| - 1]);
    }
  }

  /** Where `trim` cuts: the result is the slice of `s` between a leading
      and a trailing run of white space. */
  function TrimFrom(s: string): (i: nat)
    ensures i <= |s|
  {
    |s| - |TrimStart(s)|
  }

  function TrimTo(s: string): (j: nat)
    ensures TrimFrom(s) <= j <= |s|
  {
    TrimFrom(s) + |Trim(s)|
  }

  /** The result of `trim` has no white space at either end and sits inside
      `s` between two runs of white space. */
  lemma TrimSplits(s: string)
    ensures Trimmed(Trim(s))
    ensures Trim(s) == s[TrimFrom(s)..TrimTo(s)]
    ensures AllSpace(s[..TrimFrom(s)]) && AllSpace(s[TrimTo(s)..])
  {
    TrimIsTrimmed(s);
    TrimIsSlice(s);
    SpaceBefore(s);
    SpaceAfter(s);
  }

  lemma TrimIsTrimmed(s: string)
    ensures Trimmed(Trim(s))
  {
    var t := TrimStart(s);
    PrefixHead(t, TrimEnd(t));
  }

  /** A non-empty prefix starts where the whole sequence does. */
  lemma PrefixHead(t: string, r: string)
    requires |r| <= |t| && r == t[..|r|]
    ensures r != [] ==> r[0] == t[0]
  {
  }

  lemma TrimIsSlice(s: string)
    ensures Trim(s) == s[TrimFrom(s)..TrimTo(s)]
  {
    SliceCompose(s, TrimStart(s), Trim(s), TrimFrom(s));
  }

  /** A prefix of a suffix is a slice. */
  lemma SliceCompose(s: string, t: string, r: string, i: nat)
    requires i <= |s| && t == s[i..] && |r| <= |t| && r == t[..|r|]
    ensures r == s[i..i + |r|]
  {
  }

  lemma SpaceBefore(s: string)
    ensures AllSpace(s[..TrimFrom(s)])
  {
    var i := TrimFrom(s);
    forall k | 0 <= k < i ensures IsSpace(s[..i][k]) {
      assert s[..i][k] == s[k];
    }
  }

  lemma SpaceAfter(s: string)
    ensures AllSpace(s[TrimTo(s)..])
  {
    var t := TrimStart(s);
    var r := TrimEnd(t);
    SliceAfterSlice(s, |s| - |t|, |r|);
  }

  lemma SliceAfterSlice(s: string, i: nat, n: nat)
    requires i + n <= |s|
    ensures s[i..][n..] == s[i + n..]
  {
  }

  /** Normalising twice is normalising once, so a normalised answer compares
      equal to itself after the quiz normalises it again. */
  lemma NormalizeIdempotent(s: string)
    ensures Normalize(Normalize(s)) == Normalize(s)
  {
    var n := Normalize(s);
    LowerIdempotentOnLowered(s);
    TrimOfTrimmed(n);
  }

  lemma LowerIdempotentOnLowered(s: string)
    ensures Lower(Normalize(s)) == Normalize(s)
  {
    var l := Lower(s);
    TrimIsSlice(l);
    LoweredSlice(s, TrimFrom(l), TrimTo(l));
  }

  /** Any slice of a lower-cased string is already lower-case. */
  lemma LoweredSlice(s: string, i: nat, j: nat)
    requires i <= j <= |s|
    ensures Lower(Lower(s)[i..j]) == Lower(s)[i..j]
  {
    var n := Lower(s)[i..j];
    forall k | 0 <= k < |n| ensures LowerChar(n[k]) == n[k] {
      LowerCharIdempotent(s[i + k]);
    }
  }

  lemma LowerCharIdempotent(c: char)
    ensures LowerChar(LowerChar(c)) == LowerChar(c)
  {
  }

  /** Lower-casing works character by character, so it distributes over
      concatenation. */
  lemma LowerConcat(a: string, b: string)
    ensures Lower(a + b) == Lower(a) + Lower(b)
  {
  }

  /** White space around a string is dropped by `trim` whatever the string. */
  lemma TrimDropsPadding(pre: string, s: string, post: string)
    requires AllSpace(pre) && AllSpace(post)
    ensures Trim(pre + s + post) == Trim(s)
  {
    TrimSplits(s);
    var i, j := TrimFrom(s), TrimTo(s);
    var front, mid, back := s[..i], s[i..j], s[j..];
    SplitThree(s, i, j);
    Regroup(pre, front, mid, back, post);
    AllSpaceConcat(pre, front);
    AllSpaceConcat(back, post);
    TrimOfPadded(pre + front, mid, back + post);
  }

  lemma SplitThree(s: string, i: nat, j: nat)
    requires i <= j <= |s|
    ensures s == s[..i] + s[i..j] + s[j..]
  {
  }

  lemma Regroup(a: string, b: string, c: string, d: string, e: string)
    ensures a + (b + c + d) + e == (a + b) + c + (d + e)
  {
  }

  lemma AllSpaceConcat(a: string, b: string)
    requires AllSpace(a) && AllSpace(b)
    ensures AllSpace(a + b)
  {
    forall k | 0 <= k < |a + b| ensures IsSpace((a + b)[k]) {
      if k < |a| { assert (a + b)[k] == a[k]; } else { assert (a + b)[k] == b[k - |a|]; }
    }
  }

  /** A string already lower-case and trimmed is its own normal form. */
  lemma NormalizeOfNormal(s: string)
    requires Lower(s) == s && Trimmed(s)
    ensures Normalize(s) == s
  {
    TrimOfTrimmed(s);
  }

  /** `trim` leaves a string without white space at its ends unchanged. */
  lemma TrimOfTrimmed(s: string)
    requires Trimmed(s)
    ensures Trim(s) == s
  {
    var e: string := [];
    assert AllSpace(e);
    assert e + s + e == s;
    TrimOfPadded(e, s, e);
  }
}
