/** The parameters of a Bind message, "Message Formats" section of the PostgreSQL frontend/backend protocol
    3.0: an encoder for the message, and the decoder that walks the payload with an offset. */
module BindMessage {
  import opened Wrappers

  type byte = x: int | 0 <= x < 256

  /** The payload of a Bind message. `formats` holds the format codes of the parameters, two bytes each;
      `trailing` is what follows the parameters (the result format codes). A parameter may be NULL. */
  datatype Bind = Bind(portal: seq<byte>, statement: seq<byte>, formats: seq<byte>, params: seq<Option<seq<byte>>>,
                       trailing: seq<byte>)

  predicate WellFormed(b: Bind) {
    && 0 !in b.portal && 0 !in b.statement
    && |b.formats| % 2 == 0 && |b.formats| / 2 < 0x1_0000
    && |b.params| < 0x1_0000 && forall i :: 0 <= i < |b.params| ==> ParamFits(b.params[i])
  }

  predicate ParamFits(p: Option<seq<byte>>) {
    p.Some? ==> |p.value| < 0x8000_0000
  }

  // ---------- integers in network order ----------

  function U16(s: seq<byte>): (n: nat)
    requires |s| >= 2
    ensures n < 0x1_0000
  {
    var high: int, low: int := s[0], s[1];
    high * 0x100 + low
  }

  function U16Bytes(n: nat): (s: seq<byte>)
    requires n < 0x1_0000
    ensures |s| == 2
  {
    var high: int, low: int := n / 0x100, n % 0x100;
    [high as byte, low as byte]
  }

  function Unsigned(n: int): (raw: nat)
    requires -0x8000_0000 <= n < 0x8000_0000
    ensures raw < 0x1_0000_0000
  {
    if n < 0 then n + 0x1_0000_0000 else n
  }

  function Signed(raw: nat): (n: int)
    requires raw < 0x1_0000_0000
    ensures -0x8000_0000 <= n < 0x8000_0000
  {
    if raw < 0x8000_0000 then raw else raw - 0x1_0000_0000
  }

  /** A signed 32-bit integer in two's complement. */
  function I32(s: seq<byte>): (n: int)
    requires |s| >= 4
    ensures -0x8000_0000 <= n < 0x8000_0000
  {
    Signed(U16(s) * 0x1_0000 + U16(s[2..]))
  }

  function I32Bytes(n: int): (s: seq<byte>)
    requires -0x8000_0000 <= n < 0x8000_0000
    ensures |s| == 4
  {
    U16Bytes(Unsigned(n) / 0x1_0000) + U16Bytes(Unsigned(n) % 0x1_0000)
  }

  /** The first byte weighs most, and the top bit of four bytes weighs -0x8000_0000. */
  lemma BytesWeigh(s: seq<byte>, a: int, b: int, c: int, d: int)
    requires |s| >= 4 && s[0] == a && s[1] == b && s[2] == c && s[3] == d
    ensures U16(s) == 0x100 * a + b
    ensures I32(s) == 0x100_0000 * (if a < 0x80 then a else a - 0x100) + 0x1_0000 * b + 0x100 * c + d
  {
    assert s[2..][0] == c && s[2..][1] == d;
  }

  lemma U16RoundTrip(n: nat, s: seq<byte>)
    ensures n < 0x1_0000 ==> U16(U16Bytes(n)) == n
    ensures |s| >= 2 ==> U16Bytes(U16(s)) == s[..2]
  {
  }

  lemma U16Prefix(b: seq<byte>, s: seq<byte>)
    requires |b| == 2
    ensures U16(b + s) == U16(b) && (b + s)[..2] == b && (b + s)[2..] == s
  {
  }

  lemma I32OfBytes(n: int)
    requires -0x8000_0000 <= n < 0x8000_0000
    ensures I32(I32Bytes(n)) == n
  {
    hide U16, U16Bytes;
    var raw := Unsigned(n);
    U16RoundTrip(raw / 0x1_0000, []);
    U16RoundTrip(raw % 0x1_0000, []);
    U16Prefix(U16Bytes(raw / 0x1_0000), U16Bytes(raw % 0x1_0000));
  }

  lemma BytesOfI32(s: seq<byte>)
    requires |s| >= 4
    ensures I32Bytes(I32(s)) == s[..4]
  {
    hide U16, U16Bytes;
    U16RoundTrip(0, s);
    U16RoundTrip(0, s[2..]);
    assert Unsigned(I32(s)) == U16(s) * 0x1_0000 + U16(s[2..]);
    assert s[..2] + s[2..][..2] == s[..4];
  }

  lemma I32Prefix(b: seq<byte>, s: seq<byte>)
    requires |b| == 4
    ensures I32(b + s) == I32(b) && (b + s)[..4] == b && (b + s)[4..] == s
  {
    assert (b + s)[2..] == b[2..] + s;
  }

  // ---------- encoding ----------

  function EncodeParam(p: Option<seq<byte>>): seq<byte>
    requires ParamFits(p)
  {
    if p.None? then I32Bytes(-1) else I32Bytes(|p.value|) + p.value
  }

  function EncodeParams(params: seq<Option<seq<byte>>>): seq<byte>
    requires forall i :: 0 <= i < |params| ==> ParamFits(params[i])
  {
    if params == [] then [] else EncodeParam(params[0]) + EncodeParams(params[1..])
  }

  function Encode(b: Bind): seq<byte>
    requires WellFormed(b)
  {
    b.portal + ([0] + (b.statement + ([0] + (U16Bytes(|b.formats| / 2) + (b.formats +
    (U16Bytes(|b.params|) + (EncodeParams(b.params) + b.trailing)))))))
  }

  // ---------- decoding, one part of the payload at a time ----------

  /** The bytes before the first NUL and the bytes after it. */
  function Name(s: seq<byte>): Option<(seq<byte>, seq<byte>)> {
    if s == [] then None
    else if s[0] == 0 then Some(([], s[1..]))
    else
      match Name(s[1..])
      case None => None
      case Some(r) => Some(([s[0]] + r.0, r.1))
  }

  function DecodeParams(s: seq<byte>, count: nat): Option<(seq<Option<seq<byte>>>, seq<byte>)> {
    if count == 0 then Some(([], s))
    else if |s| < 4 then None
    else
      var length, rest := I32(s), s[4..];
      if length == -1 then Ahead(None, DecodeParams(rest, count - 1))
      else if length < 0 || length > |rest| then None
      else Ahead(Some(rest[..length]), DecodeParams(rest[length..], count - 1))
  }

  function Ahead(p: Option<seq<byte>>, r: Option<(seq<Option<seq<byte>>>, seq<byte>)>): Option<(seq<Option<seq<byte>>>, seq<byte>)> {
    match r
    case None => None
    case Some(v) => Some(([p] + v.0, v.1))
  }

  function Decode(payload: seq<byte>): Option<Bind> {
    var portal := Name(payload);
    if portal.None? then None
    else
      var statement := Name(portal.value.1);
      if statement.None? then None
      else
        var s := statement.value.1;
        if |s| < 2 || |s| < 2 + 2 * U16(s) then None
        else
          var formats, t := s[2..2 + 2 * U16(s)], s[2 + 2 * U16(s)..];
          if |t| < 2 then None
          else
            match DecodeParams(t[2..], U16(t))
            case None => None
            case Some(v) => Some(Bind(portal.value.0, statement.value.0, formats, v.0, v.1))
  }

  // ---------- decoding and encoding are inverse ----------

  lemma {:induction false} NameOfEncoded(name: seq<byte>, rest: seq<byte>)
    requires 0 !in name
    ensures Name(name + ([0] + rest)) == Some((name, rest))
  {
    var s := name + ([0] + rest);
    if name == [] {
      assert s[1..] == rest;
    } else {
      assert s[1..] == name[1..] + ([0] + rest);
      NameOfEncoded(name[1..], rest);
      assert [name[0]] + name[1..] == name;
    }
  }

  lemma {:induction false} NameIsEncoded(s: seq<byte>)
    ensures Name(s).Some? ==> 0 !in Name(s).value.0 && s == Name(s).value.0 + ([0] + Name(s).value.1)
  {
    if s != [] {
      assert s == [s[0]] + s[1..];
      if s[0] != 0 { NameIsEncoded(s[1..]); }
    }
  }

  lemma ParamOfEncoded(p: Option<seq<byte>>, more: seq<byte>, count: nat)
    requires ParamFits(p)
    ensures DecodeParams(EncodeParam(p) + more, count + 1) == Ahead(p, DecodeParams(more, count))
  {
    hide I32, I32Bytes;
    var length := if p.None? then -1 else |p.value|;
    I32OfBytes(length);
    var rest := if p.None? then more else p.value + more;
    assert EncodeParam(p) + more == I32Bytes(length) + rest;
    I32Prefix(I32Bytes(length), rest);
    if p.Some? { assert rest[..length] == p.value && rest[length..] == more; }
  }

  lemma {:induction false} ParamsOfEncoded(params: seq<Option<seq<byte>>>, trailing: seq<byte>)
    requires forall i :: 0 <= i < |params| ==> ParamFits(params[i])
    ensures DecodeParams(EncodeParams(params) + trailing, |params|) == Some((params, trailing))
  {
    hide EncodeParam, ParamFits, I32, DecodeParams, EncodeParams;
    if params == [] {
      NoParams(trailing);
    } else {
      var rest := params[1..];
      ParamsOfEncoded(rest, trailing);
      ParamOfEncoded(params[0], EncodeParams(rest) + trailing, |rest|);
      FirstParam(params, trailing);
      assert [params[0]] + rest == params;
    }
  }

  lemma NoParams(trailing: seq<byte>)
    ensures DecodeParams(EncodeParams([]) + trailing, 0) == Some(([], trailing))
  {
    assert EncodeParams([]) + trailing == trailing;
  }

  lemma FirstParam(params: seq<Option<seq<byte>>>, trailing: seq<byte>)
    requires params != [] && forall i :: 0 <= i < |params| ==> ParamFits(params[i])
    ensures EncodeParams(params) + trailing == EncodeParam(params[0]) + (EncodeParams(params[1..]) + trailing)
  {
    hide EncodeParam, ParamFits;
  }

  /** One decoded parameter stands in front of what the others were decoded from. */
  lemma ParamIsEncoded(s: seq<byte>, count: nat) returns (p: Option<seq<byte>>, tail: seq<byte>)
    requires DecodeParams(s, count + 1).Some?
    ensures ParamFits(p) && s == EncodeParam(p) + tail
    ensures DecodeParams(s, count + 1) == Ahead(p, DecodeParams(tail, count))
  {
    hide I32, I32Bytes;
    var length, rest := I32(s), s[4..];
    BytesOfI32(s);
    assert s == s[..4] + rest;
    if length == -1 {
      p, tail := None, rest;
    } else {
      p, tail := Some(rest[..length]), rest[length..];
      assert rest == p.value + tail;
    }
  }

  lemma {:induction false} ParamsAreEncoded(s: seq<byte>, count: nat)
    requires DecodeParams(s, count).Some?
    ensures var v := DecodeParams(s, count).value;
            && |v.0| == count && (forall i :: 0 <= i < count ==> ParamFits(v.0[i]))
            && s == EncodeParams(v.0) + v.1
    decreases count
  {
    hide EncodeParam, ParamFits, I32;
    if count == 0 {
      assert EncodeParams([]) + s == s;
    } else {
      var p, tail := ParamIsEncoded(s, count - 1);
      ParamsAreEncoded(tail, count - 1);
      var v, w := DecodeParams(s, count).value, DecodeParams(tail, count - 1).value;
      assert v.0 == [p] + w.0 && v.1 == w.1 && v.0[1..] == w.0;
      assert s == EncodeParam(p) + (EncodeParams(w.0) + w.1);
    }
  }

  /** Decoding an encoded message gives the message back. */
  lemma DecodeOfEncode(b: Bind)
    requires WellFormed(b)
    ensures Decode(Encode(b)) == Some(b)
  {
    hide U16, U16Bytes, DecodeParams, EncodeParams, Name, ParamFits;
    var f := |b.formats| / 2;
    var t3 := EncodeParams(b.params) + b.trailing;
    var t2 := U16Bytes(|b.params|) + t3;
    var t1 := U16Bytes(f) + (b.formats + t2);
    NameOfEncoded(b.portal, b.statement + ([0] + t1));
    NameOfEncoded(b.statement, t1);
    U16RoundTrip(f, []);
    U16Prefix(U16Bytes(f), b.formats + t2);
    assert t1[2..2 + 2 * f] == t1[2..][..2 * f] == b.formats;
    assert t1[2 + 2 * f..] == t1[2..][2 * f..] == t2;
    U16RoundTrip(|b.params|, []);
    U16Prefix(U16Bytes(|b.params|), t3);
    ParamsOfEncoded(b.params, b.trailing);
  }

  /** Whatever decodes is the encoding of the message it decodes to. */
  lemma EncodeOfDecode(payload: seq<byte>)
    requires Decode(payload).Some?
    ensures WellFormed(Decode(payload).value) && Encode(Decode(payload).value) == payload
  {
    hide U16, U16Bytes, DecodeParams, EncodeParams, Name, ParamFits;
    var b := Decode(payload).value;
    NameIsEncoded(payload);
    var s0 := Name(payload).value.1;
    NameIsEncoded(s0);
    var s := Name(s0).value.1;
    U16RoundTrip(0, s);
    var t := s[2 + 2 * U16(s)..];
    U16RoundTrip(0, t);
    ParamsAreEncoded(t[2..], U16(t));
    assert t == t[..2] + t[2..];
    assert s == s[..2] + (b.formats + t);
    assert |b.formats| == 2 * U16(s);
  }

  // ---------- the decoder of the proxy ----------

  /** The parameters that are not NULL, in order. */
  function NonNull(params: seq<Option<seq<byte>>>): seq<seq<byte>> {
    if params == [] then []
    else (if params[0].None? then [] else [params[0].value]) + NonNull(params[1..])
  }

  /** The values of a list come in its order, each parameter that is not NULL giving its own. */
  lemma {:induction false} NonNullJoins(params: seq<Option<seq<byte>>>, p: Option<seq<byte>>)
    ensures NonNull(params + [p]) == NonNull(params) + if p.Some? then [p.value] else []
    ensures NonNull([]) == []
  {
    var all := params + [p];
    if params == [] {
      assert all == [p] && all[1..] == [];
    } else {
      assert all[1..] == params[1..] + [p];
      NonNullJoins(params[1..], p);
    }
  }

  /** What is still to be read behind the values collected so far. */
  function Collected(values: seq<seq<byte>>, r: Option<(seq<Option<seq<byte>>>, seq<byte>)>): Option<seq<seq<byte>>> {
    match r
    case None => None
    case Some(v) => Some(values + NonNull(v.0))
  }

  lemma CollectedAhead(values: seq<seq<byte>>, p: Option<seq<byte>>, r: Option<(seq<Option<seq<byte>>>, seq<byte>)>)
    ensures Collected(values, Ahead(p, r)) == Collected(if p.None? then values else values + [p.value], r)
  {
    if r.Some? {
      assert ([p] + r.value.0)[1..] == r.value.0;
      var rest := NonNull(r.value.0);
      if p.None? { assert [] + rest == rest; } else { assert values + ([p.value] + rest) == values + [p.value] + rest; }
    }
  }

  lemma NameStep(payload: seq<byte>, offset: nat, i: nat)
    requires offset <= i < |payload| && payload[i] != 0
    ensures Behind(payload, offset, i) == Behind(payload, offset, i + 1)
  {
    assert payload[i..][1..] == payload[i + 1..];
    var r := Name(payload[i + 1..]);
    if r.Some? { assert payload[offset..i] + ([payload[i]] + r.value.0) == payload[offset..i + 1] + r.value.0; }
  }

  /** The name at `i`, with the bytes from `offset` to `i` in front of it. */
  function Behind(payload: seq<byte>, offset: nat, i: nat): Option<(seq<byte>, seq<byte>)>
    requires offset <= i <= |payload|
  {
    match Name(payload[i..])
    case None => None
    case Some(r) => Some((payload[offset..i] + r.0, r.1))
  }

  /** The position of the first NUL at or after `offset`. */
  method IndexOfNul(payload: seq<byte>, offset: nat) returns (r: Option<nat>)
    requires offset <= |payload|
    ensures match r
            case None => Name(payload[offset..]).None?
            case Some(i) => offset <= i < |payload| && Name(payload[offset..]) == Some((payload[offset..i], payload[i + 1..]))
  {
    hide Name;
    var i := offset;
    assert Name(payload[offset..]) == Behind(payload, offset, offset) by {
      var n := Name(payload[offset..]);
      if n.Some? { assert payload[offset..offset] + n.value.0 == n.value.0; }
    }
    while i < |payload| && payload[i] != 0
      invariant offset <= i <= |payload|
      invariant Name(payload[offset..]) == Behind(payload, offset, i)
    {
      NameStep(payload, offset, i);
      i := i + 1;
    }
    NameEnds(payload, i);
    if i < |payload| {
      assert payload[offset..i] + [] == payload[offset..i];
      return Some(i);
    }
    return None;
  }

  lemma NameEnds(payload: seq<byte>, i: nat)
    requires i <= |payload| && (i < |payload| ==> payload[i] == 0)
    ensures Name(payload[i..]) == if i < |payload| then Some(([], payload[i + 1..])) else None
  {
    if i < |payload| { assert payload[i..][1..] == payload[i + 1..]; }
  }

  /** The walk over the parameters: a NULL is skipped, any other negative or overlong length spoils the whole. */
  method ReadParams(payload: seq<byte>, start: nat, count: nat) returns (values: seq<seq<byte>>)
    requires start <= |payload|
    ensures values == match DecodeParams(payload[start..], count) case None => [] case Some(v) => NonNull(v.0)
  {
    hide DecodeParams, NonNull, I32;
    var offset := start;
    values := [];
    ghost var whole := DecodeParams(payload[start..], count);
    assert Collected([], whole) == match whole case None => None case Some(v) => Some(NonNull(v.0)) by {
      if whole.Some? { assert [] + NonNull(whole.value.0) == NonNull(whole.value.0); }
    }
    for i := 0 to count
      invariant offset <= |payload|
      invariant Collected([], whole) == Collected(values, DecodeParams(payload[offset..], count - i))
    {
      ParamStep(payload, offset, count - i, values);
      if offset + 4 > |payload| { return []; }
      var length := I32(payload[offset..]);
      offset := offset + 4;
      if length == -1 { continue; }
      if length < 0 || offset + length > |payload| { return []; }
      values := values + [payload[offset..offset + length]];
      offset := offset + length;
    }
    NoneLeft(payload[offset..]);
    assert values + [] == values;
  }

  lemma NoneLeft(s: seq<byte>)
    ensures DecodeParams(s, 0) == Some(([], s)) && NonNull([]) == []
  {
  }

  lemma ParamStep(payload: seq<byte>, offset: nat, count: nat, values: seq<seq<byte>>)
    requires offset <= |payload| && count > 0
    ensures Collected(values, DecodeParams(payload[offset..], count)) ==
            if offset + 4 > |payload| then None
            else
              var length, next := I32(payload[offset..]), offset + 4;
              if length == -1 then Collected(values, DecodeParams(payload[next..], count - 1))
              else if length < 0 || next + length > |payload| then None
              else Collected(values + [payload[next..next + length]], DecodeParams(payload[next + length..], count - 1))
  {
    hide I32, NonNull, Collected;
    if offset + 4 <= |payload| {
      var length, next, rest := I32(payload[offset..]), offset + 4, payload[offset..][4..];
      assert rest == payload[next..];
      if length == -1 {
        CollectedAhead(values, None, DecodeParams(rest, count - 1));
      } else if 0 <= length <= |rest| {
        assert rest[..length] == payload[next..next + length] && rest[length..] == payload[next + length..];
        CollectedAhead(values, Some(rest[..length]), DecodeParams(rest[length..], count - 1));
      }
    }
    CollectedNone(values);
  }

  lemma CollectedNone(values: seq<seq<byte>>)
    ensures Collected(values, None) == None
  {
  }

  /** On any bytes the decoder returns: the non-NULL parameters of the message when the bytes are one, nothing
      otherwise. */
  method BindParameters(payload: seq<byte>) returns (values: seq<seq<byte>>)
    ensures values == match Decode(payload) case None => [] case Some(b) => NonNull(b.params)
  {
    hide Name, U16, DecodeParams, NonNull;
    var nul := IndexOfNul(payload, 0);
    assert payload[0..] == payload;
    if nul.None? { return []; }
    var offset := nul.value + 1;
    nul := IndexOfNul(payload, offset);
    if nul.None? { return []; }
    offset := nul.value + 1;
    ghost var s := payload[offset..];
    if offset + 2 > |payload| { return []; }
    var formats := U16(payload[offset..]);
    offset := offset + 2 + formats * 2;
    if offset + 2 > |payload| { return []; }
    assert s[2 + 2 * formats..] == payload[offset..];
    var count := U16(payload[offset..]);
    offset := offset + 2;
    assert s[2 + 2 * formats..][2..] == payload[offset..];
    values := ReadParams(payload, offset, count);
  }

  ghost predicate IsMessage(payload: seq<byte>) {
    exists b: Bind :: WellFormed(b) && Encode(b) == payload
  }

  /** Exactly the encodings of well-formed messages decode. */
  lemma DecodesExactlyTheMessages(payload: seq<byte>)
    ensures Decode(payload).Some? <==> IsMessage(payload)
    ensures forall b: Bind :: WellFormed(b) && Encode(b) == payload ==> Decode(payload) == Some(b)
  {
    hide WellFormed, Decode, Encode;
    forall b: Bind | WellFormed(b) && Encode(b) == payload ensures Decode(payload) == Some(b) { DecodeOfEncode(b); }
    if Decode(payload).Some? { EncodeOfDecode(payload); }
  }

  /** A NULL is written as four bytes 255, a value as its length and its bytes. */
  lemma ParamMeans(p: Option<seq<byte>>)
    requires ParamFits(p)
    ensures p.None? ==> EncodeParam(p) == [255, 255, 255, 255]
    ensures p.Some? ==> |EncodeParam(p)| == 4 + |p.value| && I32(EncodeParam(p)) == |p.value| && EncodeParam(p)[4..] == p.value
  {
    if p.Some? {
      I32OfBytes(|p.value|);
      I32Prefix(I32Bytes(|p.value|), p.value);
    }
  }

  /** A message byte by byte: portal "p", statement "", no format codes, one parameter 'A', one result format code 0. */
  lemma AMessage(payload: seq<byte>)
    requires payload == [112, 0, 0, 0, 0, 0, 1, 0, 0, 0, 1, 65, 0, 0]
    ensures Decode(payload) == Some(Bind([112], [], [], [Some([65])], [0, 0]))
  {
    var b := Bind([112], [], [], [Some([65])], [0, 0]);
    assert EncodeParams(b.params) == [0, 0, 0, 1, 65] by { AParameter(b.params); }
    assert WellFormed(b);
    DecodeOfEncode(b);
    hide Decode, EncodeParams, WellFormed;
    assert U16Bytes(0) == [0, 0] && U16Bytes(1) == [0, 1];
    assert Encode(b) == payload;
  }

  lemma AParameter(params: seq<Option<seq<byte>>>)
    requires params == [Some([65])]
    ensures EncodeParams(params) == [0, 0, 0, 1, 65]
  {
    assert EncodeParam(Some([65])) == [0, 0, 0, 1, 65];
    assert params[1..] == [];
  }
}
