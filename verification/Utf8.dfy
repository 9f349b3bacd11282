/**
  The two UTF-8 truncations of agentic/: boundedTrajectoryText (trajectory_fact.go) drops bytes
  until the rest is valid, truncateLoopDescription (loop_execution_entity.go) walks back to a
  rune start. Well-formedness is section 4 of RFC 3629, as utf8.ValidString has it.
 */
module Utf8 {

  type Byte = b: int | 0 <= b < 256
  type Bytes = seq<Byte>

  // ------------------------------------------------------------------------ well-formedness

  predicate Within(s: Bytes, i: nat, low: int, high: int)
  {
    i < |s| && low <= s[i] <= high
  }

  predicate Tail(s: Bytes, i: nat)
  {
    Within(s, i, 0x80, 0xBF)
  }

  /** The length of the well-formed sequence s starts with, 0 when it starts with none. */
  function RuneSize(s: Bytes): (n: nat)
    ensures n <= 4 && n <= |s|
    ensures forall i :: 0 < i < n ==> 0x80 <= s[i] <= 0xBF
    ensures n > 0 ==> !(0x80 <= s[0] <= 0xBF)
  {
    if s == [] then 0
    else if s[0] <= 0x7F then 1
    else if 0xC2 <= s[0] <= 0xDF then (if Tail(s, 1) then 2 else 0)
    else if s[0] == 0xE0 then (if Within(s, 1, 0xA0, 0xBF) && Tail(s, 2) then 3 else 0)
    else if s[0] == 0xED then (if Within(s, 1, 0x80, 0x9F) && Tail(s, 2) then 3 else 0)
    else if 0xE1 <= s[0] <= 0xEF then (if Tail(s, 1) && Tail(s, 2) then 3 else 0)
    else if s[0] == 0xF0 then (if Within(s, 1, 0x90, 0xBF) && Tail(s, 2) && Tail(s, 3) then 4 else 0)
    else if 0xF1 <= s[0] <= 0xF3 then (if Tail(s, 1) && Tail(s, 2) && Tail(s, 3) then 4 else 0)
    else if s[0] == 0xF4 then (if Within(s, 1, 0x80, 0x8F) && Tail(s, 2) && Tail(s, 3) then 4 else 0)
    else 0
  }

  /** utf8.ValidString. */
  predicate Valid(s: Bytes)
    decreases |s|
  {
    s == [] || (RuneSize(s) > 0 && Valid(s[RuneSize(s)..]))
  }

  /** utf8.RuneStart. */
  predicate RuneStart(b: Byte)
  {
    !(0x80 <= b <= 0xBF)
  }

  // ----------------------------------------------------------------- the longest valid prefix

  /** k is the length of the longest valid prefix of s within n bytes. */
  ghost predicate Longest(s: Bytes, n: nat, k: nat)
  {
    && k <= n <= |s| && Valid(s[..k])
    && forall j :: k < j <= n ==> !Valid(s[..j])
  }

  /** boundedTrajectoryText, on arbitrary bytes. */
  method BoundedTrajectoryText(value: Bytes, maxBytes: nat) returns (r: Bytes)
    ensures |value| <= maxBytes ==> r == value
    ensures |value| > maxBytes ==> r <= value && Longest(value, maxBytes, |r|)
  {
    if |value| <= maxBytes { return value; }
    r := value[..maxBytes];
    while !Valid(r)
      invariant |r| <= maxBytes && r == value[..|r|]
      invariant forall j :: |r| < j <= maxBytes ==> !Valid(value[..j])
      decreases |r|
    {
      r := r[..|r| - 1];
    }
  }

  /** The walk back to a rune start. */
  function WalkBack(s: Bytes, cut: nat): (k: nat)
    requires cut < |s|
    ensures k <= cut
  {
    if cut > 0 && !RuneStart(s[cut]) then WalkBack(s, cut - 1) else cut
  }

  // ---------------------------------------------------------------------- rune boundaries

  lemma PrefixRune(s: Bytes, c: nat)
    requires c <= |s| && RuneSize(s) > 0
    ensures RuneSize(s[..c]) == if c < RuneSize(s) then 0 else RuneSize(s)
  {
    assert forall i :: 0 <= i < c ==> s[..c][i] == s[i];
  }

  /** In a valid string the prefixes that are valid are those that end at a rune start. */
  lemma {:induction false} BoundaryIffRuneStart(s: Bytes, c: nat)
    requires Valid(s) && c <= |s|
    ensures Valid(s[..c]) <==> c == |s| || RuneStart(s[c])
    decreases |s|
  {
    if s != [] {
      var n := RuneSize(s);
      PrefixRune(s, c);
      if c >= n {
        BoundaryIffRuneStart(s[n..], c - n);
        assert s[..c][n..] == s[n..][..c - n];
      } else if c == 0 {
        assert s[..0] == [];
      } else {
        assert s[..c] != [];
      }
    }
  }

  lemma {:induction false} StartWithinThree(s: Bytes, cut: nat)
    requires Valid(s) && cut < |s|
    ensures WalkBack(s, cut) >= cut - 3
    ensures WalkBack(s, cut) == 0 || RuneStart(s[WalkBack(s, cut)])
    decreases |s|
  {
    var n := RuneSize(s);
    if cut >= n {
      StartWithinThree(s[n..], cut - n);
      WalkBackShift(s, n, cut);
    } else {
      WalkBackToZero(s, cut);
    }
  }

  lemma {:induction false} WalkBackToZero(s: Bytes, cut: nat)
    requires cut < |s| && forall i :: 0 < i <= cut ==> !RuneStart(s[i])
    ensures WalkBack(s, cut) == 0
  {
    if cut > 0 { WalkBackToZero(s, cut - 1); }
  }

  lemma {:induction false} WalkBackShift(s: Bytes, n: nat, cut: nat)
    requires n <= cut < |s| && RuneStart(s[n])
    ensures WalkBack(s, cut) == n + WalkBack(s[n..], cut - n)
    decreases cut
  {
    if cut > n {
      assert s[n..][cut - n] == s[cut];
      if !RuneStart(s[cut]) { WalkBackShift(s, n, cut - 1); }
    }
  }

  lemma {:induction false} WalkBackSkips(s: Bytes, cut: nat)
    requires cut < |s|
    ensures forall j :: WalkBack(s, cut) < j <= cut ==> !RuneStart(s[j])
  {
    if cut > 0 && !RuneStart(s[cut]) { WalkBackSkips(s, cut - 1); }
  }

  /**
    The two algorithms agree: in a valid string longer than n, the longest valid prefix within n
    bytes ends where the walk back from n ends, and at most three bytes are dropped.
   */
  lemma WalkBackIsLongest(s: Bytes, n: nat, k: nat)
    requires Valid(s) && n < |s|
    ensures Longest(s, n, k) <==> k == WalkBack(s, n)
    ensures n - WalkBack(s, n) <= 3
  {
    var w := WalkBack(s, n);
    StartWithinThree(s, n);
    WalkBackSkips(s, n);
    forall j | 0 <= j <= n ensures Valid(s[..j]) <==> RuneStart(s[j]) {
      BoundaryIffRuneStart(s, j);
    }
    FirstByteStarts(s);
    assert Longest(s, n, w);
    if Longest(s, n, k) { LongestUnique(s, n, k, w); }
  }

  lemma LongestUnique(s: Bytes, n: nat, k: nat, w: nat)
    requires Longest(s, n, k) && Longest(s, n, w)
    ensures k == w
  {
  }

  lemma FirstByteStarts(s: Bytes)
    requires Valid(s) && s != []
    ensures RuneStart(s[0])
  {
  }

  // ------------------------------------------------------------------- the marked truncation

  /** "…[truncated]". */
  const MARKER: Bytes := [0xE2, 0x80, 0xA6, 0x5B, 0x74, 0x72, 0x75, 0x6E, 0x63, 0x61, 0x74, 0x65, 0x64, 0x5D]

  lemma RuneSizeExtends(a: Bytes, b: Bytes)
    requires RuneSize(a) > 0
    ensures RuneSize(a + b) == RuneSize(a)
  {
    assert forall i :: 0 <= i < |a| ==> (a + b)[i] == a[i];
  }

  lemma {:induction false} ValidConcat(a: Bytes, b: Bytes)
    requires Valid(a) && Valid(b)
    ensures Valid(a + b)
    decreases |a|
  {
    if a == [] {
      assert a + b == b;
    } else {
      var n := RuneSize(a);
      RuneSizeExtends(a, b);
      assert (a + b)[n..] == a[n..] + b;
      ValidConcat(a[n..], b);
    }
  }

  lemma {:induction false} AsciiValid(s: Bytes)
    requires forall i :: 0 <= i < |s| ==> s[i] <= 0x7F
    ensures Valid(s)
    decreases |s|
  {
    if s != [] { AsciiValid(s[1..]); }
  }

  /** A prefix of the marker is valid unless it ends inside the ellipsis. */
  lemma MarkerPrefix(m: nat)
    requires m <= |MARKER|
    ensures Valid(MARKER[..m]) <==> m != 1 && m != 2
  {
    var p := MARKER[..m];
    if m >= 3 {
      assert RuneSize(p) == 3;
      AsciiValid(p[3..]);
    } else if m > 0 {
      assert RuneSize(p) == 0;
    }
  }

  /** What a truncated text is: a piece of the marker, or a rune-aligned prefix and the marker. */
  function Truncated(marker: Bytes, s: Bytes, maxBytes: nat): (r: Bytes)
    ensures |r| <= maxBytes
  {
    if |s| <= maxBytes then s
    else if maxBytes <= |marker| then marker[..maxBytes]
    else s[..WalkBack(s, maxBytes - |marker|)] + marker
  }

  /** truncateLoopDescription. */
  method TruncateLoopDescription(s: Bytes, maxBytes: nat) returns (r: Bytes)
    ensures r == Truncated(MARKER, s, maxBytes) && |r| <= maxBytes
  {
    if |s| <= maxBytes { return s; }
    var budget := maxBytes - |MARKER|;
    if budget <= 0 { return MARKER[..maxBytes]; }
    var cut := budget;
    while cut > 0 && !RuneStart(s[cut])
      invariant 0 <= cut <= budget
      invariant WalkBack(s, cut) == WalkBack(s, budget)
    {
      cut := cut - 1;
    }
    return s[..cut] + MARKER;
  }

  /** Past the marker's length, for any marker, the longest valid prefix that leaves room for it is kept. */
  lemma MarkedTruncation(marker: Bytes, s: Bytes, maxBytes: nat, k: nat)
    requires Valid(s) && Valid(marker) && |s| > maxBytes > |marker| && k == WalkBack(s, maxBytes - |marker|)
    ensures Truncated(marker, s, maxBytes) == s[..k] + marker && Longest(s, maxBytes - |marker|, k)
    ensures Valid(s[..k] + marker)
  {
    WalkBackIsLongest(s, maxBytes - |marker|, k);
    ValidConcat(s[..k], marker);
  }

  /** With any valid marker, valid text stays valid exactly when it fits or what is kept of the marker is valid. */
  lemma TruncationValidFor(marker: Bytes, s: Bytes, maxBytes: nat)
    requires Valid(s) && Valid(marker)
    ensures Valid(Truncated(marker, s, maxBytes)) <==>
      |s| <= maxBytes || maxBytes > |marker| || Valid(marker[..maxBytes])
  {
    if |s| > maxBytes > |marker| {
      MarkedTruncation(marker, s, maxBytes, WalkBack(s, maxBytes - |marker|));
    }
  }

  lemma MarkerValid()
    ensures Valid(MARKER)
  {
    MarkerPrefix(|MARKER|);
    assert MARKER[..|MARKER|] == MARKER;
  }

  /**
    Valid text stays valid exactly when it fits or the limit is neither one nor two bytes, which
    cut the ellipsis.
   */
  lemma TruncationValid(s: Bytes, maxBytes: nat)
    requires Valid(s)
    ensures Valid(Truncated(MARKER, s, maxBytes)) <==> |s| <= maxBytes || (maxBytes != 1 && maxBytes != 2)
  {
    MarkerValid();
    TruncationValidFor(MARKER, s, maxBytes);
    if maxBytes <= |MARKER| { MarkerPrefix(maxBytes); }
  }

  /** The text "ab" with a limit of one byte becomes the first byte of the ellipsis. */
  lemma TruncatesInsideMarker()
    ensures Valid([0x61, 0x62]) && !Valid(Truncated(MARKER, [0x61, 0x62], 1))
  {
    AsciiValid([0x61, 0x62]);
    TruncationValid([0x61, 0x62], 1);
  }
}
