/**
  The JSON depth scanner (validateJSONDepth in config/security.go), against two readings: prefix
  depths on arbitrary bytes, and container nesting on every serialisation of every JSON value
  (sections 2 to 7 of RFC 8259).
 */
module JsonDepth {

  type Byte = b: int | 0 <= b < 256

  const MAX_DEPTH := 100
  const QUOTE: Byte := 0x22
  const BACKSLASH: Byte := 0x5C
  const OPEN_BRACE: Byte := 0x7B
  const CLOSE_BRACE: Byte := 0x7D
  const OPEN_BRACKET: Byte := 0x5B
  const CLOSE_BRACKET: Byte := 0x5D

  // --------------------------------------------------------------- reading arbitrary bytes

  /** Whether a byte position is outside a string, inside one, or just after a backslash in one. */
  datatype Mode = Outside | InString | Escaped

  function NextMode(m: Mode, b: Byte): Mode
  {
    match m
    case Outside => if b == QUOTE then InString else Outside
    case InString => if b == BACKSLASH then Escaped else if b == QUOTE then Outside else InString
    case Escaped => InString
  }

  function ModeAfter(data: seq<Byte>): Mode
  {
    if data == [] then Outside else NextMode(ModeAfter(data[..|data| - 1]), data[|data| - 1])
  }

  function Bump(m: Mode, b: Byte): int
  {
    if m != Outside then 0
    else if b == OPEN_BRACE || b == OPEN_BRACKET then 1
    else if b == CLOSE_BRACE || b == CLOSE_BRACKET then -1
    else 0
  }

  /** Brackets opened minus brackets closed, outside strings. */
  function Depth(data: seq<Byte>): int
  {
    if data == [] then 0
    else Depth(data[..|data| - 1]) + Bump(ModeAfter(data[..|data| - 1]), data[|data| - 1])
  }

  /** Every prefix depth is within 0..100 and the whole closes what it opens. */
  ghost predicate Acceptable(data: seq<Byte>)
  {
    (forall i :: 0 <= i <= |data| ==> 0 <= Depth(data[..i]) <= MAX_DEPTH) && Depth(data) == 0
  }

  lemma PrefixStep(data: seq<Byte>, i: nat)
    requires i < |data|
    ensures Depth(data[..i + 1]) == Depth(data[..i]) + Bump(ModeAfter(data[..i]), data[i])
    ensures ModeAfter(data[..i + 1]) == NextMode(ModeAfter(data[..i]), data[i])
  {
    assert data[..i + 1][..i] == data[..i];
  }

  /** validateJSONDepth. */
  method ValidateJSONDepth(data: seq<Byte>) returns (ok: bool)
    ensures ok <==> Acceptable(data)
  {
    var depth := 0;
    var maxDepthReached := 0;
    var inString := false;
    var escaped := false;
    var i := 0;
    while i < |data|
      invariant 0 <= i <= |data|
      invariant depth == Depth(data[..i])
      invariant ModeAfter(data[..i]) == if escaped then Escaped else if inString then InString else Outside
      invariant escaped ==> inString
      invariant forall k :: 0 <= k <= i ==> 0 <= Depth(data[..k]) <= MAX_DEPTH
    {
      var b := data[i];
      PrefixStep(data, i);
      i := i + 1;
      if escaped {
        escaped := false;
        continue;
      }
      if b == BACKSLASH && inString {
        escaped := true;
        continue;
      }
      if b == QUOTE && !escaped {
        inString := !inString;
        continue;
      }
      if inString {
        continue;
      }
      if b == OPEN_BRACE || b == OPEN_BRACKET {
        depth := depth + 1;
        if depth > maxDepthReached { maxDepthReached := depth; }
        if depth > MAX_DEPTH { return false; }
      } else if b == CLOSE_BRACE || b == CLOSE_BRACKET {
        depth := depth - 1;
        if depth < 0 { return false; }
      }
    }
    assert data[..|data|] == data;
    return depth == 0;
  }

  // ------------------------------------------------------------------- JSON texts (RFC 8259)

  /** White space between tokens. */
  predicate IsSpace(ws: seq<Byte>)
  {
    forall i :: 0 <= i < |ws| ==> ws[i] in {0x20, 0x09, 0x0A, 0x0D}
  }

  /** One element of a string body: a plain byte, or a backslash with what it escapes. */
  datatype Piece = Plain(b: Byte) | Escape(b: Byte)
  {
    predicate Valid()
    {
      match this
      case Plain(b) => b >= 0x20 && b != QUOTE && b != BACKSLASH
      case Escape(b) => b in {QUOTE, BACKSLASH, 0x2F, 0x62, 0x66, 0x6E, 0x72, 0x74, 0x75}
    }

    function Text(): seq<Byte>
    {
      match this case Plain(b) => [b] case Escape(b) => [BACKSLASH, b]
    }
  }

  /** A bare token: a number, true, false or null. */
  predicate Bare(token: seq<Byte>)
  {
    token != [] && forall i :: 0 <= i < |token| ==>
      token[i] != QUOTE && token[i] !in {OPEN_BRACE, CLOSE_BRACE, OPEN_BRACKET, CLOSE_BRACKET}
  }

  /**
    A JSON text with all its white space, as a tree: every serialisation of every value is one of
    these. The four hex digits after \\u are plain bytes.
   */
  datatype Json =
    | Literal(token: seq<Byte>)
    | Str(body: seq<Piece>)
    | Arr(pad: seq<Byte>, items: seq<Json>)
    | Obj(pad: seq<Byte>, keys: seq<Label>, values: seq<Json>)
    | Spaced(left: seq<Byte>, inner: Json, right: seq<Byte>)

  /** A member name with the white space around it. */
  datatype Label = Label(left: seq<Byte>, body: seq<Piece>, right: seq<Byte>)
  {
    predicate Valid() { IsSpace(left) && IsSpace(right) && ValidPieces(body) }
  }

  predicate ValidPieces(body: seq<Piece>)
  {
    forall i :: 0 <= i < |body| ==> body[i].Valid()
  }

  predicate Valid(v: Json)
  {
    match v
    case Literal(token) => Bare(token)
    case Str(body) => ValidPieces(body)
    case Arr(pad, items) => IsSpace(pad) && forall i :: 0 <= i < |items| ==> Valid(items[i])
    case Obj(pad, keys, values) =>
      && IsSpace(pad) && |keys| == |values|
      && (forall i :: 0 <= i < |keys| ==> keys[i].Valid())
      && (forall i :: 0 <= i < |values| ==> Valid(values[i]))
    case Spaced(left, inner, right) => IsSpace(left) && IsSpace(right) && Valid(inner)
  }

  function PiecesText(body: seq<Piece>): seq<Byte>
  {
    if body == [] then []
    else body[0].Text() + PiecesText(body[1..])
  }

  function StringText(body: seq<Piece>): seq<Byte>
  {
    [QUOTE] + PiecesText(body) + [QUOTE]
  }

  function LabelText(l: Label): seq<Byte>
  {
    l.left + StringText(l.body) + l.right
  }

  const COMMA: Byte := 0x2C
  const COLON: Byte := 0x3A

  function Text(v: Json): seq<Byte>
    requires Valid(v)
    decreases v, 0
  {
    match v
    case Literal(token) => token
    case Str(body) => StringText(body)
    case Arr(pad, items) => [OPEN_BRACKET] + (pad + ItemsText(v, items)) + [CLOSE_BRACKET]
    case Obj(pad, keys, values) => [OPEN_BRACE] + (pad + MembersText(v, keys, values)) + [CLOSE_BRACE]
    case Spaced(left, inner, right) => left + Text(inner) + right
  }

  function ItemsText(ghost parent: Json, items: seq<Json>): seq<Byte>
    requires forall i :: 0 <= i < |items| ==> items[i] < parent && Valid(items[i])
    decreases parent, 0, |items|
  {
    if items == [] then []
    else Text(items[0]) + (if |items| == 1 then [] else [COMMA]) + ItemsText(parent, items[1..])
  }

  function MembersText(ghost parent: Json, keys: seq<Label>, values: seq<Json>): seq<Byte>
    requires |keys| == |values|
    requires forall i :: 0 <= i < |values| ==> values[i] < parent && Valid(values[i])
    decreases parent, 0, |values|
  {
    if values == [] then []
    else
      LabelText(keys[0]) + [COLON] + Text(values[0]) + (if |values| == 1 then [] else [COMMA])
      + MembersText(parent, keys[1..], values[1..])
  }

  function Max(a: nat, b: nat): nat { if a >= b then a else b }

  /** How deeply arrays and objects nest. */
  function Nesting(v: Json): nat
  {
    match v
    case Literal(_) => 0
    case Str(_) => 0
    case Arr(_, items) => 1 + Deepest(v, items)
    case Obj(_, _, values) => 1 + Deepest(v, values)
    case Spaced(_, inner, _) => Nesting(inner)
  }

  function Deepest(ghost parent: Json, items: seq<Json>): nat
    requires forall i :: 0 <= i < |items| ==> items[i] < parent
    decreases parent, 0, |items|
  {
    if items == [] then 0 else Max(Nesting(items[0]), Deepest(parent, items[1..]))
  }

  // ----------------------------------------------------------- balanced texts and their peak

  /** t ends outside strings, closes what it opens, and its prefix depths reach exactly n. */
  ghost predicate Peaks(t: seq<Byte>, n: nat)
  {
    && ModeAfter(t) == Outside && Depth(t) == 0
    && (forall i :: 0 <= i <= |t| ==> 0 <= Depth(t[..i]) <= n)
    && (exists i :: 0 <= i <= |t| && Depth(t[..i]) == n)
  }

  lemma {:induction false} Append(a: seq<Byte>, b: seq<Byte>)
    requires ModeAfter(a) == Outside
    ensures ModeAfter(a + b) == ModeAfter(b) && Depth(a + b) == Depth(a) + Depth(b)
  {
    if b == [] {
      assert a + b == a;
    } else {
      Append(a, b[..|b| - 1]);
      assert (a + b)[..|a + b| - 1] == a + b[..|b| - 1];
    }
  }

  lemma {:induction false} PrefixOfAppend(a: seq<Byte>, b: seq<Byte>, i: nat)
    requires ModeAfter(a) == Outside && i <= |a| + |b|
    ensures Depth((a + b)[..i]) == if i <= |a| then Depth(a[..i]) else Depth(a) + Depth(b[..i - |a|])
  {
    if i <= |a| {
      assert (a + b)[..i] == a[..i];
    } else {
      assert (a + b)[..i] == a + b[..i - |a|];
      Append(a, b[..i - |a|]);
    }
  }

  lemma {:induction false} PeaksConcat(a: seq<Byte>, m: nat, b: seq<Byte>, n: nat)
    requires Peaks(a, m) && Peaks(b, n)
    ensures Peaks(a + b, Max(m, n))
  {
    Append(a, b);
    forall i | 0 <= i <= |a + b| ensures 0 <= Depth((a + b)[..i]) <= Max(m, n) {
      PrefixOfAppend(a, b, i);
    }
    if m >= n {
      var i :| 0 <= i <= |a| && Depth(a[..i]) == m;
      PrefixOfAppend(a, b, i);
      assert Depth((a + b)[..i]) == Max(m, n);
    } else {
      var i :| 0 <= i <= |b| && Depth(b[..i]) == n;
      PrefixOfAppend(a, b, |a| + i);
      assert i > 0 by { assert b[..0] == []; }
      assert Depth((a + b)[..|a| + i]) == Max(m, n);
    }
  }

  lemma OneByte(b: Byte)
    ensures ModeAfter([b]) == NextMode(Outside, b) && Depth([b]) == Bump(Outside, b)
  {
    assert [b][..0] == [];
  }

  lemma PeaksWrap(open: Byte, t: seq<Byte>, n: nat, close: Byte)
    requires Peaks(t, n)
    requires Bump(Outside, open) == 1 && Bump(Outside, close) == -1
    ensures Peaks([open] + t + [close], n + 1)
  {
    OneByte(open);
    OneByte(close);
    var body := [open] + t;
    var all := body + [close];
    Append([open], t);
    Append(body, [close]);
    forall i | 0 <= i <= |all| ensures 0 <= Depth(all[..i]) <= n + 1 {
      if i <= |body| {
        assert all[..i] == body[..i];
        PrefixOfAppend([open], t, i);
        if i == 0 { assert [open][..0] == []; } else if i == 1 { assert [open][..1] == [open]; }
      } else {
        assert all[..i] == all;
      }
    }
    var i :| 0 <= i <= |t| && Depth(t[..i]) == n;
    PrefixOfAppend([open], t, i + 1);
    assert all[..i + 1] == body[..i + 1];
    if i == 0 { assert [open][..1] == [open]; assert t[..0] == []; }
    assert Depth(all[..i + 1]) == n + 1;
  }

  /** Bytes that neither quote nor bracket. */
  predicate Neutral(t: seq<Byte>)
  {
    forall i :: 0 <= i < |t| ==>
      t[i] != QUOTE && t[i] !in {OPEN_BRACE, CLOSE_BRACE, OPEN_BRACKET, CLOSE_BRACKET}
  }

  /** They leave everything as it is. */
  lemma {:induction false} PeaksNeutral(t: seq<Byte>)
    requires Neutral(t)
    ensures Peaks(t, 0)
  {
    if t == [] {
      assert t[..0] == [];
      assert Depth(t[..0]) == 0;
    } else {
      var front, b := t[..|t| - 1], t[|t| - 1];
      PeaksNeutral(front);
      OneByte(b);
      PeaksByte(b);
      PeaksConcat(front, 0, [b], 0);
      assert t == front + [b];
    }
  }

  lemma PeaksByte(b: Byte)
    requires b != QUOTE && Bump(Outside, b) == 0
    ensures Peaks([b], 0)
  {
    OneByte(b);
    assert [b][..0] == [] && [b][..1] == [b];
    assert Depth([b][..0]) == 0;
  }

  /** t extends p by bytes that count nothing, and ends inside the same string. */
  ghost predicate StaysInside(p: seq<Byte>, t: seq<Byte>)
  {
    && ModeAfter(p + t) == InString
    && forall i :: |p| <= i <= |p + t| ==> Depth((p + t)[..i]) == Depth(p)
  }

  lemma AppendByte(p: seq<Byte>, b: Byte)
    ensures ModeAfter(p + [b]) == NextMode(ModeAfter(p), b) && Depth(p + [b]) == Depth(p) + Bump(ModeAfter(p), b)
  {
    assert (p + [b])[..|p|] == p;
  }

  lemma InsidePlain(p: seq<Byte>, b: Byte)
    requires ModeAfter(p) == InString && b != QUOTE && b != BACKSLASH
    ensures StaysInside(p, [b])
  {
    AppendByte(p, b);
    var q := p + [b];
    assert q[..|p|] == p && q[..|p| + 1] == q;
  }

  lemma InsideEscape(p: seq<Byte>, b: Byte)
    requires ModeAfter(p) == InString
    ensures StaysInside(p, [BACKSLASH, b])
  {
    var q := p + [BACKSLASH];
    AppendByte(p, BACKSLASH);
    AppendByte(q, b);
    var r := q + [b];
    assert p + [BACKSLASH, b] == r;
    assert r[..|p|] == p && r[..|p| + 1] == q && r[..|p| + 2] == r;
  }

  lemma InsidePiece(p: seq<Byte>, piece: Piece)
    requires ModeAfter(p) == InString && piece.Valid()
    ensures StaysInside(p, piece.Text())
  {
    match piece
    case Plain(b) => InsidePlain(p, b);
    case Escape(b) => InsideEscape(p, b);
  }

  lemma InsideBoth(p: seq<Byte>, a: seq<Byte>, b: seq<Byte>)
    requires StaysInside(p, a) && StaysInside(p + a, b)
    ensures StaysInside(p, a + b)
  {
    var q := p + a;
    assert p + (a + b) == q + b;
    assert q[..|q|] == q;
    forall i | |p| <= i <= |q + b| ensures Depth((q + b)[..i]) == Depth(p) {
      if i < |q| { assert (q + b)[..i] == q[..i]; }
    }
  }

  /** Inside a string nothing counts, and an escaped quote does not end it. */
  lemma {:induction false} InsideString(p: seq<Byte>, body: seq<Piece>)
    requires ModeAfter(p) == InString && ValidPieces(body)
    ensures StaysInside(p, PiecesText(body))
    decreases |body|
  {
    if body == [] {
      assert p + [] == p && p[..|p|] == p;
    } else {
      var head := body[0].Text();
      InsidePiece(p, body[0]);
      InsideString(p + head, body[1..]);
      InsideBoth(p, head, PiecesText(body[1..]));
    }
  }

  lemma PeaksString(body: seq<Piece>)
    requires ValidPieces(body)
    ensures Peaks(StringText(body), 0)
  {
    var open := [QUOTE];
    OneByte(QUOTE);
    InsideString(open, body);
    var inner := open + PiecesText(body);
    var all := inner + [QUOTE];
    assert all == StringText(body);
    assert all[..|inner|] == inner;
    PrefixStep(all, |inner|);
    assert all[..|all|] == all;
    forall i | 0 <= i <= |all| ensures Depth(all[..i]) == 0 {
      if i == 0 {
        assert all[..0] == [];
      } else if i <= |inner| {
        assert all[..i] == inner[..i];
      } else {
        assert all[..i] == all;
        assert inner[..|inner|] == inner;
      }
    }
    assert Depth(all[..0]) == 0;
  }

  lemma PeaksPadded(left: seq<Byte>, t: seq<Byte>, n: nat, right: seq<Byte>)
    requires Neutral(left) && Peaks(t, n) && Neutral(right)
    ensures Peaks(left + t + right, n)
  {
    PeaksNeutral(left);
    PeaksNeutral(right);
    PeaksConcat(left, 0, t, n);
    PeaksConcat(left + t, n, right, 0);
  }

  lemma PeaksContainer(open: Byte, pad: seq<Byte>, t: seq<Byte>, n: nat, close: Byte)
    requires Neutral(pad) && Peaks(t, n) && Bump(Outside, open) == 1 && Bump(Outside, close) == -1
    ensures Peaks([open] + (pad + t) + [close], n + 1)
  {
    PeaksNeutral(pad);
    PeaksConcat(pad, 0, t, n);
    PeaksWrap(open, pad + t, n, close);
  }

  lemma PeaksMember(key: seq<Byte>, t: seq<Byte>, n: nat, comma: seq<Byte>, rest: seq<Byte>, m: nat)
    requires Peaks(key, 0) && Peaks(t, n) && Neutral(comma) && Peaks(rest, m)
    ensures Peaks(key + [COLON] + t + comma + rest, Max(n, m))
  {
    PeaksNeutral([COLON]);
    PeaksNeutral(comma);
    PeaksConcat(key, 0, [COLON], 0);
    PeaksConcat(key + [COLON], 0, t, n);
    PeaksConcat(key + [COLON] + t, n, comma, 0);
    PeaksConcat(key + [COLON] + t + comma, n, rest, m);
  }

  lemma PeaksLabel(l: Label)
    requires l.Valid()
    ensures Peaks(LabelText(l), 0)
  {
    PeaksString(l.body);
    PeaksPadded(l.left, StringText(l.body), 0, l.right);
  }

  // --------------------------------------------------------------------------- the theorem

  /** The text of a value is balanced and peaks at its nesting. */
  lemma {:induction false} TextPeaks(v: Json)
    requires Valid(v)
    ensures Peaks(Text(v), Nesting(v))
    decreases v, 0
  {
    match v
    case Literal(token) => PeaksNeutral(token);
    case Str(body) => PeaksString(body);
    case Arr(pad, items) =>
      ItemsPeak(v, items);
      PeaksContainer(OPEN_BRACKET, pad, ItemsText(v, items), Deepest(v, items), CLOSE_BRACKET);
    case Obj(pad, keys, values) =>
      MembersPeak(v, keys, values);
      PeaksContainer(OPEN_BRACE, pad, MembersText(v, keys, values), Deepest(v, values), CLOSE_BRACE);
    case Spaced(left, inner, right) =>
      TextPeaks(inner);
      PeaksPadded(left, Text(inner), Nesting(inner), right);
  }

  lemma {:induction false} ItemsPeak(parent: Json, items: seq<Json>)
    requires forall i :: 0 <= i < |items| ==> items[i] < parent && Valid(items[i])
    ensures Peaks(ItemsText(parent, items), Deepest(parent, items))
    decreases parent, 0, |items|
  {
    if items == [] {
      PeaksNeutral([]);
    } else {
      TextPeaks(items[0]);
      ItemsPeak(parent, items[1..]);
      var comma := if |items| == 1 then [] else [COMMA];
      PeaksNeutral(comma);
      PeaksConcat(Text(items[0]), Nesting(items[0]), comma, 0);
      PeaksConcat(Text(items[0]) + comma, Nesting(items[0]), ItemsText(parent, items[1..]),
                  Deepest(parent, items[1..]));
    }
  }

  lemma {:induction false} MembersPeak(parent: Json, keys: seq<Label>, values: seq<Json>)
    requires |keys| == |values| && forall i :: 0 <= i < |keys| ==> keys[i].Valid()
    requires forall i :: 0 <= i < |values| ==> values[i] < parent && Valid(values[i])
    ensures Peaks(MembersText(parent, keys, values), Deepest(parent, values))
    decreases parent, 0, |values|
  {
    if values == [] {
      PeaksNeutral([]);
    } else {
      TextPeaks(values[0]);
      MembersPeak(parent, keys[1..], values[1..]);
      PeaksLabel(keys[0]);
      PeaksMember(LabelText(keys[0]), Text(values[0]), Nesting(values[0]), if |values| == 1 then [] else [COMMA],
                  MembersText(parent, keys[1..], values[1..]), Deepest(parent, values[1..]));
    }
  }

  /** On every serialisation of every JSON value the scanner accepts exactly nesting up to 100. */
  lemma AcceptsByNesting(v: Json)
    requires Valid(v)
    ensures Acceptable(Text(v)) <==> Nesting(v) <= MAX_DEPTH
  {
    TextPeaks(v);
    var t := Text(v);
    if Acceptable(t) {
      var i :| 0 <= i <= |t| && Depth(t[..i]) == Nesting(v);
    }
  }
}
