/** The few `java.lang.String` operations the opening book relies on: `indexOf`,
    `split` with a literal separator, `String.join`, `trim` and `Integer.parseInt`. */
module JavaStrings {
  import opened Wrappers
  import opened JavaInts

  /** `sep` occurs in `s` starting at `i`. */
  predicate OccursAt(s: string, sep: string, i: int) {
    0 <= i && i + |sep| <= |s| && s[i..i + |sep|] == sep
  }

  /** `indexOf`: the first position where `sep` occurs, if any. */
  function IndexOf(s: string, sep: string): (r: Option<nat>)
    requires sep != []
    ensures r.Some? ==> OccursAt(s, sep, r.value)
    ensures forall i :: OccursAt(s, sep, i) ==> r.Some? && r.value <= i
    decreases |s|
  {
    if |s| < |sep| then None
    else if s[..|sep|] == sep then Some(0)
    else
      var r := IndexOf(s[1..], sep);
      assert forall i :: OccursAt(s, sep, i) && i > 0 ==> OccursAt(s[1..], sep, i - 1) by {
        forall i | OccursAt(s, sep, i) && i > 0
          ensures OccursAt(s[1..], sep, i - 1)
        {
          assert s[1..][i - 1..i - 1 + |sep|] == s[i..i + |sep|];
        }
      }
      match r
      case None => None
      case Some(k) =>
        assert s[1..][k..k + |sep|] == s[k + 1..k + 1 + |sep|];
        Some(k + 1)
  }

  /** Splitting at every occurrence of `sep`, keeping every piece. */
  function Pieces(s: string, sep: string): (r: seq<string>)
    requires sep != []
    ensures |r| >= 1
    decreases |s|
  {
    match IndexOf(s, sep)
    case None => [s]
    case Some(i) => [s[..i]] + Pieces(s[i + |sep|..], sep)
  }

  /** `String.join`: the pieces with `sep` between each two. */
  function Join(sep: string, ps: seq<string>): string {
    if ps == [] then ""
    else if |ps| == 1 then ps[0]
    else ps[0] + sep + Join(sep, ps[1..])
  }

  lemma JoinCons(sep: string, p: string, ps: seq<string>)
    requires ps != []
    ensures Join(sep, [p] + ps) == p + sep + Join(sep, ps)
  {
    assert ([p] + ps)[1..] == ps;
  }

  /** Joining the pieces back gives the string that was split. */
  lemma {:induction false} JoinPieces(s: string, sep: string)
    requires sep != []
    ensures Join(sep, Pieces(s, sep)) == s
    decreases |s|
  {
    var r := IndexOf(s, sep);
    if r.Some? {
      var i := r.value;
      var rest := s[i + |sep|..];
      assert Pieces(s, sep) == [s[..i]] + Pieces(rest, sep);
      calc {
        Join(sep, Pieces(s, sep));
        { JoinCons(sep, s[..i], Pieces(rest, sep)); }
        s[..i] + sep + Join(sep, Pieces(rest, sep));
        { JoinPieces(rest, sep); }
        s[..i] + sep + rest;
        { assert OccursAt(s, sep, i); }
        s[..i] + s[i..i + |sep|] + s[i + |sep|..];
        s;
      }
    }
  }

  /** No piece contains the separator. */
  lemma {:induction false} PiecesAreFree(s: string, sep: string)
    requires sep != []
    ensures forall p :: p in Pieces(s, sep) ==> IndexOf(p, sep).None?
    decreases |s|
  {
    match IndexOf(s, sep)
    case None =>
    case Some(i) =>
      var rest := s[i + |sep|..];
      PiecesAreFree(rest, sep);
      assert Pieces(s, sep) == [s[..i]] + Pieces(rest, sep);
      PrefixFree(s, sep, i);
  }

  /** The text before the first occurrence of the separator does not contain it. */
  lemma PrefixFree(s: string, sep: string, i: nat)
    requires sep != [] && IndexOf(s, sep) == Some(i)
    ensures IndexOf(s[..i], sep).None?
  {
    var p := s[..i];
    forall k | OccursAt(p, sep, k)
      ensures false
    {
      assert p[k..k + |sep|] == s[k..k + |sep|];
      assert OccursAt(s, sep, k);
    }
  }

  /** The pieces without the empty pieces at the end. */
  function DropTrailingEmpty(ps: seq<string>): (r: seq<string>)
    ensures |r| <= |ps| && r == ps[..|r|]
    ensures r == [] || r[|r| - 1] != ""
    ensures forall i :: |r| <= i < |ps| ==> ps[i] == ""
  {
    if ps == [] then []
    else if ps[|ps| - 1] == "" then DropTrailingEmpty(ps[..|ps| - 1])
    else ps
  }

  /** `split` with a separator that has no regular-expression meaning: a string in which
      the separator never occurs is its own only piece; otherwise the pieces, with the
      empty ones at the end removed. */
  function Split(s: string, sep: string): seq<string>
    requires sep != []
  {
    if IndexOf(s, sep).None? then [s] else DropTrailingEmpty(Pieces(s, sep))
  }

  /** Splitting a join on a one-character separator gives back the pieces, when none of
      them contains the character. */
  lemma {:induction false} PiecesOfJoin(ps: seq<string>, c: char)
    requires |ps| >= 1 && forall i :: 0 <= i < |ps| ==> c !in ps[i]
    ensures Pieces(Join([c], ps), [c]) == ps
  {
    var s := Join([c], ps);
    if |ps| == 1 {
      forall k | 0 <= k < |s|
        ensures !OccursAt(s, [c], k)
      {
        assert s[k] in ps[0];
        if k + 1 <= |s| {
          assert s[k..k + 1][0] == s[k];
        }
      }
    } else {
      var rest := Join([c], ps[1..]);
      assert s == ps[0] + [c] + rest;
      assert OccursAt(s, [c], |ps[0]|) by {
        assert s[|ps[0]|..|ps[0]| + 1] == [c];
      }
      forall k | 0 <= k < |ps[0]|
        ensures !OccursAt(s, [c], k)
      {
        assert s[k..k + 1][0] == s[k] == ps[0][k];
      }
      var k := IndexOf(s, [c]).value;
      assert k == |ps[0]|;
      assert s[k + 1..] == rest;
      assert s[..k] == ps[0];
      PiecesOfJoin(ps[1..], c);
    }
  }

  /** Splitting a join of at least two pieces on a one-character separator gives back the
      pieces as far as their last non-empty one. */
  lemma SplitOfJoin(ps: seq<string>, c: char)
    requires |ps| >= 2 && forall i :: 0 <= i < |ps| ==> c !in ps[i]
    ensures Split(Join([c], ps), [c]) == DropTrailingEmpty(ps)
  {
    var s := Join([c], ps);
    PiecesOfJoin(ps, c);
    assert s == ps[0] + [c] + Join([c], ps[1..]);
    assert OccursAt(s, [c], |ps[0]|) by {
      assert s[|ps[0]|..|ps[0]| + 1] == [c];
    }
  }

  // ---------------------------------------------------------------- trim

  /** Characters `trim` removes: every code point up to the space. */
  predicate IsTrimmed(ch: char) {
    ch <= ' '
  }

  function TrimStart(s: string): (r: string)
    ensures |r| <= |s| && r == s[|s| - |r|..]
    ensures r == [] || !IsTrimmed(r[0])
    ensures forall i :: 0 <= i < |s| - |r| ==> IsTrimmed(s[i])
  {
    if s != [] && IsTrimmed(s[0]) then TrimStart(s[1..]) else s
  }

  function TrimEnd(s: string): (r: string)
    ensures |r| <= |s| && r == s[..|r|]
    ensures r == [] || !IsTrimmed(r[|r| - 1])
    ensures forall i :: |r| <= i < |s| ==> IsTrimmed(s[i])
  {
    if s != [] && IsTrimmed(s[|s| - 1]) then TrimEnd(s[..|s| - 1]) else s
  }

  /** `trim`: the string without its leading and trailing spaces and control
      characters. */
  function Trim(s: string): (r: string)
    ensures r == [] || (!IsTrimmed(r[0]) && !IsTrimmed(r[|r| - 1]))
  {
    TrimEnd(TrimStart(s))
  }

  /** Each half of `trim` leaves a string it has already trimmed unchanged. */
  lemma {:induction false} TrimmedStaysTrimmed(s: string)
    requires s == [] || (!IsTrimmed(s[0]) && !IsTrimmed(s[|s| - 1]))
    ensures TrimStart(s) == s && TrimEnd(s) == s
  {
  }

  /** `trim` is idempotent. */
  lemma TrimIdempotent(s: string)
    ensures Trim(Trim(s)) == Trim(s)
  {
    TrimmedStaysTrimmed(Trim(s));
  }

  /** `r` is the slice of `s` that starts at `i`, with only characters `trim`
      removes before and after it. */
  ghost predicate TrimmedSlice(s: string, i: nat, r: string) {
    i + |r| <= |s| && r == s[i..i + |r|] &&
    (forall k :: 0 <= k < i ==> IsTrimmed(s[k])) &&
    (forall k :: i + |r| <= k < |s| ==> IsTrimmed(s[k]))
  }

  /** What `trim` keeps is the slice of the original that starts after the leading
      characters it removes, with only removed characters after it. */
  lemma TrimIsSlice(s: string)
    ensures TrimmedSlice(s, |s| - |TrimStart(s)|, Trim(s))
  {
    var t := TrimStart(s);
    var r := TrimEnd(t);
    assert Trim(s) == r;
    assert |t| <= |s| && t == s[|s| - |t|..];
    assert forall k :: 0 <= k < |s| - |t| ==> IsTrimmed(s[k]);
    assert |r| <= |t| && r == t[..|r|];
    assert forall j :: |r| <= j < |t| ==> IsTrimmed(t[j]);
    MiddleSlice(s, t, r);
  }

  /** A prefix `r` of a suffix `t` of `s` is a middle slice of `s`, and whatever
      `r` leaves of `t` is what follows that slice in `s`. */
  lemma MiddleSlice(s: string, t: string, r: string)
    requires |t| <= |s| && t == s[|s| - |t|..]
    requires forall k :: 0 <= k < |s| - |t| ==> IsTrimmed(s[k])
    requires |r| <= |t| && r == t[..|r|]
    requires forall j :: |r| <= j < |t| ==> IsTrimmed(t[j])
    ensures TrimmedSlice(s, |s| - |t|, r)
  {
    var i := |s| - |t|;
    assert s[i..][..|r|] == s[i..i + |r|];
    forall k | i + |r| <= k < |s|
      ensures IsTrimmed(s[k])
    {
      assert s[k] == t[k - i];
    }
  }

  // ---------------------------------------------------------------- parseInt

  predicate IsDigit(ch: char) {
    '0' <= ch <= '9'
  }

  predicate AllDigits(s: string) {
    forall i :: 0 <= i < |s| ==> IsDigit(s[i])
  }

  /** The value of a string of decimal digits. */
  function DigitsValue(s: string): nat
    requires AllDigits(s)
  {
    if s == [] then 0
    else DigitsValue(s[..|s| - 1]) * 10 + (s[|s| - 1] as int - '0' as int)
  }

  /** `Integer.parseInt`: an optional sign, then at least one decimal digit, with a value
      inside the range of `int`; anything else throws. */
  function ParseInt(s: string): Option<Int32> {
    if s == [] then None
    else
      var body := if s[0] == '-' || s[0] == '+' then s[1..] else s;
      if body == [] || !AllDigits(body) then None
      else
        var v := if s[0] == '-' then -(DigitsValue(body) as int) else DigitsValue(body);
        if MinValue <= v <= MaxValue then Some(v) else None
  }

  /** The decimal digits of a natural number, without leading zeros. */
  function NatToString(n: nat): (s: string)
    ensures s != [] && AllDigits(s)
  {
    var digit := ('0' as int + n % 10) as char;
    if n < 10 then [digit] else NatToString(n / 10) + [digit]
  }

  /** The digits of `n` have the value `n`. */
  lemma {:induction false} NatToStringValue(n: nat)
    ensures DigitsValue(NatToString(n)) == n
  {
    var s := NatToString(n);
    if n >= 10 {
      NatToStringValue(n / 10);
      assert s[..|s| - 1] == NatToString(n / 10);
    }
  }

  /** Writing a non-negative `int` in decimal and parsing it gives it back. */
  lemma ParseIntRoundTrip(n: nat)
    requires n <= MaxValue
    ensures ParseInt(NatToString(n)) == Some(n)
  {
    NatToStringValue(n);
    var s := NatToString(n);
    assert IsDigit(s[0]);
  }

  /** Writing a negative `int` in decimal, down to `Integer.MIN_VALUE`, and parsing it
      gives it back. */
  lemma ParseNegativeRoundTrip(n: nat)
    requires 0 < n <= -MinValue
    ensures ParseInt("-" + NatToString(n)) == Some(-(n as int))
  {
    NatToStringValue(n);
    var s := "-" + NatToString(n);
    assert s[1..] == NatToString(n);
  }
}
