/** The handful of Python `str` operations the pipeline uses, on `seq<char>`
    (a Python `str` is a sequence of code points, as a Dafny `string` is). */
module Strings {
  import opened Wrappers

  /** Python's `str.isspace()` on one character; it is also the class that
      the `re` module's `\s` matches in a `str` pattern. */
  predicate IsSpace(c: char)
  {
    c == ' ' || ('\t' <= c <= '\r') || ('\U{1c}' <= c <= '\U{1f}')
    || c == '\U{85}' || c == '\U{a0}' || c == '\U{1680}'
    || ('\U{2000}' <= c <= '\U{200a}') || c == '\U{2028}' || c == '\U{2029}'
    || c == '\U{202f}' || c == '\U{205f}' || c == '\U{3000}'
  }

  predicate AllSpace(s: string)
  {
    forall i :: 0 <= i < |s| ==> IsSpace(s[i])
  }

  /** The index of the first non-space character at or after `from`
      (`|s|` when there is none). */
  function SkipSpaces(s: string, from: nat): (e: nat)
    requires from <= |s|
    ensures from <= e <= |s|
    ensures forall i :: from <= i < e ==> IsSpace(s[i])
    ensures e < |s| ==> !IsSpace(s[e])
    decreases |s| - from
  {
    if from < |s| && IsSpace(s[from]) then SkipSpaces(s, from + 1) else from
  }

  /** The index just after the last non-space character before `hi`, and
      not below `lo`. */
  function SkipSpacesBack(s: string, lo: nat, hi: nat): (b: nat)
    requires lo <= hi <= |s|
    ensures lo <= b <= hi
    ensures forall i :: b <= i < hi ==> IsSpace(s[i])
    ensures lo < b ==> !IsSpace(s[b - 1])
    decreases hi
  {
    if lo < hi && IsSpace(s[hi - 1]) then SkipSpacesBack(s, lo, hi - 1) else hi
  }

  /** Where `s.strip()` starts and ends in `s`. */
  function StripStart(s: string): nat
  {
    SkipSpaces(s, 0)
  }

  function StripEnd(s: string): nat
  {
    SkipSpacesBack(s, StripStart(s), |s|)
  }

  /** `s.strip()`: drops the leading and the trailing whitespace. */
  function Strip(s: string): string
  {
    s[StripStart(s)..StripEnd(s)]
  }

  /** Stripping keeps the piece of `s` between its outer whitespace: the
      result is empty exactly for blank input, otherwise it has no
      whitespace at either end, and everything cut off is whitespace. */
  lemma StripSpec(s: string)
    ensures StripStart(s) <= StripEnd(s) <= |s| && Strip(s) == s[StripStart(s)..StripEnd(s)]
    ensures forall i :: 0 <= i < StripStart(s) || StripEnd(s) <= i < |s| ==> IsSpace(s[i])
    ensures Strip(s) == [] <==> AllSpace(s)
    ensures Strip(s) != [] ==> !IsSpace(Strip(s)[0]) && !IsSpace(Strip(s)[|Strip(s)| - 1])
  {
    var a := StripStart(s);
    var b := StripEnd(s);
    if a == b {
      assert forall i :: 0 <= i < |s| ==> IsSpace(s[i]);
    } else {
      assert s[a..b][0] == s[a];
      assert s[a..b][b - a - 1] == s[b - 1];
      assert !AllSpace(s) by {
        assert !IsSpace(s[a]);
      }
    }
  }

  /** Stripping twice is the same as stripping once. */
  lemma StripIdempotent(s: string)
    ensures Strip(Strip(s)) == Strip(s)
  {
    StripSpec(s);
    if Strip(s) != [] {
      StripTrimmed(Strip(s));
    }
  }

  /** A string with non-space ends is left alone by `strip`. */
  lemma StripTrimmed(s: string)
    requires s != [] && !IsSpace(s[0]) && !IsSpace(s[|s| - 1])
    ensures Strip(s) == s
  {
    assert StripStart(s) == 0;
    assert StripEnd(s) == |s|;
    assert s[0..|s|] == s;
  }

  /** `[p.strip() for p in pieces if p.strip()]` */
  function StripNonBlank(pieces: seq<string>): (r: seq<string>)
    ensures |r| <= |pieces|
    ensures forall i :: 0 <= i < |r| ==> r[i] != "" && !IsSpace(r[i][0]) && !IsSpace(r[i][|r[i]| - 1])
  {
    if pieces == [] then []
    else
      var rest := StripNonBlank(pieces[1..]);
      var p := Strip(pieces[0]);
      StripSpec(pieces[0]);
      if p != "" then [p] + rest else rest
  }

  /** The filter works piece by piece: it keeps the order of the pieces. */
  lemma {:induction false} StripNonBlankAppend(a: seq<string>, b: seq<string>)
    ensures StripNonBlank(a + b) == StripNonBlank(a) + StripNonBlank(b)
  {
    if a != [] {
      assert (a + b)[1..] == a[1..] + b;
      StripNonBlankAppend(a[1..], b);
    } else {
      assert a + b == b;
    }
  }

  /** One piece gives its stripped text, or nothing when it is blank. */
  lemma StripNonBlankSingle(p: string)
    ensures StripNonBlank([p]) == if Strip(p) != "" then [Strip(p)] else []
  {
    assert [p][1..] == [];
  }

  /** `p` occurs in `s` at index `k`. */
  predicate StartsAt(s: string, k: int, p: string)
  {
    0 <= k && k + |p| <= |s| && s[k..k + |p|] == p
  }

  /** An occurrence fixes the characters it covers. */
  lemma StartsAtChar(s: string, k: int, p: string, i: nat)
    requires StartsAt(s, k, p) && i < |p|
    ensures s[k + i] == p[i]
  {
    assert s[k..k + |p|][i] == s[k + i];
  }

  /** The same, as an implication, for use where the occurrence is only
      supposed. */
  lemma StartsAtChars(s: string, k: int, p: string)
    ensures StartsAt(s, k, p) ==> forall i :: 0 <= i < |p| ==> s[k + i] == p[i]
  {
    if StartsAt(s, k, p) {
      forall i | 0 <= i < |p| ensures s[k + i] == p[i] {
        StartsAtChar(s, k, p, i);
      }
    }
  }

  /** An occurrence that ends inside `a` is an occurrence in `a + b` and back. */
  lemma StartsAtPrefix(a: string, b: string, k: int, p: string)
    requires 0 <= k && k + |p| <= |a|
    ensures StartsAt(a + b, k, p) <==> StartsAt(a, k, p)
  {
    assert (a + b)[k..k + |p|] == a[k..k + |p|];
  }

  /** `s.find(p, from)`, as an option: the first index at or after `from`
      where `p` occurs. */
  function FindFrom(s: string, p: string, from: nat): (r: Option<nat>)
    decreases |s| - from
    ensures r.Some? ==> from <= r.value && StartsAt(s, r.value, p)
    ensures forall k :: from <= k && (r.None? || k < r.value) ==> !StartsAt(s, k, p)
  {
    if from + |p| > |s| then None
    else if StartsAt(s, from, p) then Some(from)
    else FindFrom(s, p, from + 1)
  }

  function Find(s: string, p: string): (r: Option<nat>)
  {
    FindFrom(s, p, 0)
  }

  /** `p in s`. */
  predicate Contains(s: string, p: string)
  {
    Find(s, p).Some?
  }

  lemma ContainsIff(s: string, p: string)
    ensures Contains(s, p) <==> exists k :: StartsAt(s, k, p)
  {
    if !Contains(s, p) {
      forall k ensures !StartsAt(s, k, p) {
        if k < 0 {} else {}
      }
    }
  }

  /** `s.endswith(suffix)`. */
  predicate EndsWith(s: string, suffix: string)
  {
    |suffix| <= |s| && s[|s| - |suffix|..] == suffix
  }

  /** `sep.join(xs)`. */
  function Join(sep: string, xs: seq<string>): (r: string)
  {
    if |xs| == 0 then ""
    else if |xs| == 1 then xs[0]
    else xs[0] + sep + Join(sep, xs[1..])
  }

  /** `s.split(sep)` for a non-empty separator: the pieces between the
      leftmost non-overlapping occurrences of `sep`. Joining them back with
      `sep` gives `s`, and no piece contains `sep`. */
  function Split(s: string, sep: string): (r: seq<string>)
    requires sep != ""
    ensures |r| >= 1
    ensures Join(sep, r) == s
    ensures forall i :: 0 <= i < |r| ==> !Contains(r[i], sep)
    decreases |s|
  {
    match Find(s, sep)
    case None => [s]
    case Some(k) =>
      var rest := Split(s[k + |sep|..], sep);
      assert s == s[..k] + sep + s[k + |sep|..];
      assert !Contains(s[..k], sep) by {
        ContainsIff(s[..k], sep);
        forall j | StartsAt(s[..k], j, sep) ensures false {
          assert s[..k] + s[k..] == s;
          StartsAtPrefix(s[..k], s[k..], j, sep);
        }
      }
      [s[..k]] + rest
  }

  /** No occurrence of `sep` starts inside `x`, even when `x` is followed by
      `sep` itself: `x` can sit between two separators unambiguously. */
  predicate SeparableBy(x: string, sep: string)
  {
    forall k :: 0 <= k < |x| ==> !StartsAt(x + sep, k, sep)
  }

  /** `str.split` cuts at the leftmost occurrence every time, so that every
      piece but the last is separable by `sep` (no occurrence starts inside
      it, not even one running into the separator that follows it). */
  lemma {:induction false} SplitLeftmost(s: string, sep: string)
    requires sep != ""
    ensures forall i :: 0 <= i < |Split(s, sep)| - 1 ==> SeparableBy(Split(s, sep)[i], sep)
    decreases |s|
  {
    var r := Split(s, sep);
    match Find(s, sep)
    case None =>
    case Some(k) =>
      var x := s[..k];
      var tail := s[k + |sep|..];
      assert s == (x + sep) + tail;
      forall j | 0 <= j < |x| ensures !StartsAt(x + sep, j, sep) {
        if j + |sep| <= |x + sep| {
          StartsAtPrefix(x + sep, tail, j, sep);
        }
      }
      SplitLeftmost(tail, sep);
      assert r == [x] + Split(tail, sep);
  }

  /** Splitting a join gives back the pieces when no piece can be confused
      with the separator. */
  lemma {:induction false} SplitJoin(sep: string, xs: seq<string>)
    requires sep != "" && |xs| >= 1
    requires forall i :: 0 <= i < |xs| ==> SeparableBy(xs[i], sep)
    ensures Split(Join(sep, xs), sep) == xs
  {
    var x := xs[0];
    if |xs| == 1 {
      forall k | 0 <= k ensures !StartsAt(x, k, sep) {
        if k + |sep| <= |x| && k < |x| {
          StartsAtPrefix(x, sep, k, sep);
        }
      }
      assert Find(x, sep).None?;
    } else {
      var t := Join(sep, xs[1..]);
      var s := x + sep + t;
      assert s == (x + sep) + t;
      forall k | 0 <= k < |x| ensures !StartsAt(s, k, sep) {
        StartsAtPrefix(x + sep, t, k, sep);
      }
      assert s[|x|..|x| + |sep|] == sep;
      assert StartsAt(s, |x|, sep);
      assert Find(s, sep) == Some(|x|);
      assert s[..|x|] == x;
      assert s[|x| + |sep|..] == t;
      SplitJoin(sep, xs[1..]);
    }
  }

  /** `s.replace(p, "")`: every leftmost non-overlapping occurrence of `p`
      is deleted, scanning left to right. */
  function RemoveAll(s: string, p: string): (r: string)
    requires p != ""
    ensures |r| <= |s|
    decreases |s|
  {
    match Find(s, p)
    case None => s
    case Some(k) => s[..k] + RemoveAll(s[k + |p|..], p)
  }

  /** Deleting `p` is joining the pieces of `s.split(p)` with nothing in
      between (the identity `s.replace(p, q) == q.join(s.split(p))`). */
  lemma {:induction false} RemoveAllIsJoinOfSplit(s: string, p: string)
    requires p != ""
    ensures RemoveAll(s, p) == Join("", Split(s, p))
    decreases |s|
  {
    match Find(s, p)
    case None =>
    case Some(k) =>
      RemoveAllIsJoinOfSplit(s[k + |p|..], p);
  }

  /** A leading `p` is deleted; the rest, free of `p`, stays. */
  lemma RemoveAllPrefix(p: string, rest: string)
    requires p != "" && !Contains(rest, p)
    ensures RemoveAll(p + rest, p) == rest
  {
    var s := p + rest;
    assert s[0..|p|] == p;
    assert StartsAt(s, 0, p);
    assert Find(s, p) == Some(0);
    assert s[|p|..] == rest;
  }

  function DigitChar(d: nat): (c: char)
    requires d < 10
    ensures '0' <= c <= '9'
  {
    (48 + d) as char
  }

  /** `str(n)` for a natural number: its decimal digits, no leading zeros. */
  function Decimal(n: nat): (r: string)
    ensures r != []
    ensures forall i :: 0 <= i < |r| ==> '0' <= r[i] <= '9'
    ensures |r| > 1 ==> r[0] != '0'
  {
    if n < 10 then [DigitChar(n)] else Decimal(n / 10) + [DigitChar(n % 10)]
  }

  /** The number a string of decimal digits denotes (`int(s)`). */
  function DecimalValue(s: string): nat
    requires forall i :: 0 <= i < |s| ==> '0' <= s[i] <= '9'
  {
    if s == [] then 0
    else 10 * DecimalValue(s[..|s| - 1]) + (s[|s| - 1] as int - 48)
  }

  /** `int(str(n)) == n`. */
  lemma {:induction false} DecimalRoundTrip(n: nat)
    ensures DecimalValue(Decimal(n)) == n
  {
    if n >= 10 {
      var r := Decimal(n);
      assert r[..|r| - 1] == Decimal(n / 10);
      DecimalRoundTrip(n / 10);
    }
  }

  /** ASCII `c.lower()`. */
  function LowerChar(c: char): char
  {
    if 'A' <= c <= 'Z' then (c as int + 32) as char else c
  }

  /** `s.lower()` restricted to ASCII letters. */
  function LowerAscii(s: string): (r: string)
  {
    seq(|s|, i requires 0 <= i < |s| => LowerChar(s[i]))
  }

  /** Lowercasing is length-preserving, and lowercasing twice changes nothing. */
  lemma LowerAsciiIdempotent(s: string)
    ensures |LowerAscii(s)| == |s|
    ensures LowerAscii(LowerAscii(s)) == LowerAscii(s)
  {
  }
}
