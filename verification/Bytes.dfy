/**
 Little-endian integers of fixed width and length-prefixed strings, written one after the other into a
 buffer and read back from an offset.
 */
module Bytes {
  import opened Results

  type byte = b: nat | b < 256

  datatype WireError =
    | PodTooShort | StringTooShort | StringTooLarge | NoMessageId
    | UnknownMessageId(id: nat) | InvalidLevel(level: nat) | UnknownStage(stage: nat)

  /** 2^(8 * width). */
  function Pow256(width: nat): (r: nat)
    ensures r >= 1
  {
    if width == 0 then 1 else 256 * Pow256(width - 1)
  }

  lemma {:induction false} Widths()
    ensures Pow256(1) == 0x100 && Pow256(4) == 0x1_0000_0000 && Pow256(8) == 0x1_0000_0000_0000_0000
  {
  }

  // ---- integers ----

  function Little(v: nat, width: nat): (r: seq<byte>)
    ensures |r| == width
  {
    if width == 0 then [] else [v % 256] + Little(v / 256, width - 1)
  }

  function Value(bytes: seq<byte>): nat {
    if bytes == [] then 0 else bytes[0] + 256 * Value(bytes[1..])
  }

  lemma {:induction false} ValueOfLittle(v: nat, width: nat)
    requires v < Pow256(width)
    ensures Value(Little(v, width)) == v
  {
    if width > 0 {
      ValueOfLittle(v / 256, width - 1);
      assert Little(v, width)[1..] == Little(v / 256, width - 1);
    }
  }

  lemma {:induction false} LittleOfValue(bytes: seq<byte>)
    ensures Value(bytes) < Pow256(|bytes|) && Little(Value(bytes), |bytes|) == bytes
  {
    if bytes != [] {
      var v := Value(bytes[1..]);
      LittleOfValue(bytes[1..]);
      LowByte(bytes[0], v);
      assert Little(Value(bytes), |bytes|) == [bytes[0]] + Little(v, |bytes| - 1);
    }
  }

  lemma {:induction false} LowByte(b: byte, v: nat)
    ensures (b + 256 * v) % 256 == b && (b + 256 * v) / 256 == v
  {
  }

  /** Two's complement. */
  predicate InWidth(v: int, width: nat) {
    var bound: int := Pow256(width);
    -bound <= 2 * v < bound
  }

  function Unsigned(v: int, width: nat): (r: nat)
    requires InWidth(v, width)
    ensures r < Pow256(width)
  {
    if v >= 0 then v else v + Pow256(width)
  }

  function Signed(u: nat, width: nat): int {
    if 2 * u < Pow256(width) then u else u - Pow256(width)
  }

  /** A signed integer as it stands on the wire. */
  function Pod(v: int, width: nat): (r: seq<byte>)
    requires InWidth(v, width)
    ensures |r| == width
  {
    Little(Unsigned(v, width), width)
  }

  lemma {:induction false} Signedness(u: nat, width: nat)
    requires width >= 1 && u < Pow256(width)
    ensures InWidth(Signed(u, width), width) && Unsigned(Signed(u, width), width) == u
  {
  }

  lemma {:induction false} Unsignedness(v: int, width: nat)
    requires InWidth(v, width)
    ensures Signed(Unsigned(v, width), width) == v
  {
  }

  /** A string as it stands on the wire. */
  predicate ShortText(text: seq<byte>) {
    |text| < Pow256(4)
  }

  function Text(text: seq<byte>): seq<byte> {
    Little(|text|, 4) + text
  }

  // ---- taking a value off the front of the data ----

  datatype Taken<+T> = Taken(value: T, rest: seq<byte>)

  function TakeNat(data: seq<byte>, width: nat): Result<Taken<nat>, WireError> {
    if |data| < width then Failure(PodTooShort) else Success(Taken(Value(data[..width]), data[width..]))
  }

  function TakeInt(data: seq<byte>, width: nat): Result<Taken<int>, WireError> {
    var u :- TakeNat(data, width);
    Success(Taken(Signed(u.value, width), u.rest))
  }

  function TakeText(data: seq<byte>): Result<Taken<seq<byte>>, WireError> {
    var n :- TakeNat(data, 4);
    if |n.rest| < n.value then Failure(StringTooShort) else Success(Taken(n.rest[..n.value], n.rest[n.value..]))
  }

  lemma {:induction false} Front<T>(a: seq<T>, b: seq<T>)
    ensures (a + b)[..|a|] == a && (a + b)[|a|..] == b
  {
  }

  lemma {:induction false} TakeNatIff(data: seq<byte>, width: nat, v: nat, rest: seq<byte>)
    ensures TakeNat(data, width) == Success(Taken(v, rest)) <==> v < Pow256(width) && data == Little(v, width) + rest
  {
    if |data| >= width {
      LittleOfValue(data[..width]);
      assert data == data[..width] + data[width..];
    }
    if v < Pow256(width) && data == Little(v, width) + rest {
      Front(Little(v, width), rest);
      ValueOfLittle(v, width);
    }
  }

  lemma {:induction false} TakeIntIff(data: seq<byte>, width: nat, v: int, rest: seq<byte>)
    requires width >= 1
    ensures TakeInt(data, width) == Success(Taken(v, rest)) <==> InWidth(v, width) && data == Pod(v, width) + rest
  {
    if TakeInt(data, width) == Success(Taken(v, rest)) {
      var u := TakeNat(data, width).value.value;
      TakeNatIff(data, width, u, rest);
      Signedness(u, width);
    }
    if InWidth(v, width) && data == Pod(v, width) + rest {
      TakeNatIff(data, width, Unsigned(v, width), rest);
      Unsignedness(v, width);
    }
  }

  lemma {:induction false} TakeTextIff(data: seq<byte>, v: seq<byte>, rest: seq<byte>)
    ensures TakeText(data) == Success(Taken(v, rest)) <==> ShortText(v) && data == Text(v) + rest
  {
    if TakeText(data) == Success(Taken(v, rest)) {
      var n := TakeNat(data, 4).value;
      TakeNatIff(data, 4, n.value, n.rest);
      assert n.rest == v + rest;
      assert Little(|v|, 4) + (v + rest) == Text(v) + rest;
    }
    if ShortText(v) && data == Text(v) + rest {
      assert data == Little(|v|, 4) + (v + rest);
      TakeNatIff(data, 4, |v|, v + rest);
      Front(v, rest);
    }
  }

  // ---- the buffer and the offset of the source ----

  /** std::vector<std::byte> under append_pod and append_string. */
  class Writer {
    var bytes: seq<byte>

    constructor ()
      ensures bytes == []
    {
      bytes := [];
    }

    method AppendNat(v: nat, width: nat)
      modifies this
      ensures bytes == old(bytes) + Little(v, width)
    {
      bytes := bytes + Little(v, width);
    }

    method AppendInt(v: int, width: nat)
      requires InWidth(v, width)
      modifies this
      ensures bytes == old(bytes) + Pod(v, width)
    {
      AppendNat(Unsigned(v, width), width);
    }

    /** append_string refuses what its 32-bit length cannot say, before it writes anything. */
    method AppendText(text: seq<byte>) returns (ok: bool)
      modifies this
      ensures ok == ShortText(text)
      ensures bytes == if ok then old(bytes) + Text(text) else old(bytes)
    {
      Widths();
      if |text| > 0xFFFF_FFFF {
        return false;
      }
      AppendNat(|text|, 4);
      bytes := bytes + text;
      return true;
    }
  }

  /** The payload and the offset that read_pod and read_string advance. */
  class Reader {
    const data: seq<byte>
    var offset: nat

    constructor (data: seq<byte>)
      ensures this.data == data && offset == 0
    {
      this.data := data;
      offset := 0;
    }

    predicate Valid()
      reads this
    {
      offset <= |data|
    }

    function Rest(): seq<byte>
      requires Valid()
      reads this
    {
      data[offset..]
    }

    /** read_pod never looks past the end: what it reads is the front of the rest. */
    method ReadNat(width: nat) returns (r: Result<nat, WireError>)
      requires Valid()
      modifies this
      ensures Valid()
      ensures match TakeNat(old(Rest()), width)
              case Success(t) => r == Success(t.value) && Rest() == t.rest
              case Failure(e) => r == Failure(e) && offset == old(offset)
    {
      if offset > |data| || width > |data| - offset {
        return Failure(PodTooShort);
      }
      assert data[offset..][..width] == data[offset..offset + width];
      r := Success(Value(data[offset..offset + width]));
      assert data[offset..][width..] == data[offset + width..];
      offset := offset + width;
    }

    method ReadInt(width: nat) returns (r: Result<int, WireError>)
      requires Valid()
      modifies this
      ensures Valid()
      ensures match TakeInt(old(Rest()), width)
              case Success(t) => r == Success(t.value) && Rest() == t.rest
              case Failure(e) => r == Failure(e) && offset == old(offset)
    {
      var u :- ReadNat(width);
      r := Success(Signed(u, width));
    }

    method ReadText() returns (r: Result<seq<byte>, WireError>)
      requires Valid()
      modifies this
      ensures Valid()
      ensures match TakeText(old(Rest()))
              case Success(t) => r == Success(t.value) && Rest() == t.rest
              case Failure(e) => r == Failure(e)
    {
      var n :- ReadNat(4);
      if offset > |data| || n > |data| - offset {
        return Failure(StringTooShort);
      }
      assert data[offset..][..n] == data[offset..offset + n];
      r := Success(data[offset..offset + n]);
      assert data[offset..][n..] == data[offset + n..];
      offset := offset + n;
    }
  }
}
