/**
 Length-prefixed messages in a file (gem5/util/protolib.py). Lengths are varints, as in
 the section "Base 128 Varints" of the Protocol Buffers "Encoding" document. Messages are
 their serialised bytes.

 Shifts and masks by constant powers of two are written as arithmetic: or-ing seven new
 bits above the bits read so far adds them.
 */
module Protolib {
  import opened Machine
  import Sequences

  const TWO63: int := 0x8000_0000_0000_0000

  // ----- varints

  function Varint(v: nat): seq<byte> {
    if v < 128 then [v] else [128 + v % 128] + Varint(v / 128)
  }

  /** v shifted left by k groups of seven bits. */
  function Shl(v: nat, k: nat): nat {
    if k == 0 then v else 128 * Shl(v, k - 1)
  }

  /** `b & 0x7f` */
  function Low7(b: byte): nat {
    if b < 128 then b else b - 128
  }

  /** The number that groups of seven bits spell, low group first. */
  function Bits(s: seq<byte>): nat {
    if s == [] then 0 else Low7(s[0]) + 128 * Bits(s[1..])
  }

  /** What the decoder makes of the bits read: the low 32 bits, or'ed with all ones above
      them if the value exceeds a signed 64-bit integer. */
  function Masked(r: nat): int {
    if r > TWO63 - 1 then Low32(r) - TWO32 else Low32(r)
  }

  /** `r & mask`, by subtraction. */
  function Low32(r: nat): (m: nat)
    ensures m < TWO32
  {
    if r < TWO32 then r else Low32(r - TWO32)
  }

  lemma {:induction false} Low32IsRemainder(r: nat)
    ensures Low32(r) == r % TWO32
  {
    if r >= TWO32 {
      Low32IsRemainder(r - TWO32);
    }
  }

  /** The first byte without the continuation bit, looking at ten bytes at most. */
  function Stop(s: seq<byte>, k: nat): (n: nat)
    requires k <= |s| && k <= 10
    ensures k <= n <= |s| && n <= 10 && (n < |s| && n < 10 ==> s[n] < 128)
    ensures forall i :: k <= i < n ==> s[i] >= 128
    decreases |s| - k
  {
    if k == |s| || k == 10 || s[k] < 128 then k else Stop(s, k + 1)
  }

  datatype Decoded = EndOfFile | TooManyBytes | Value(result: int, length: nat)

  /** The varint at the head of a file. */
  function Decode(s: seq<byte>): (r: Decoded)
    ensures r.Value? ==> 0 < r.length <= |s|
  {
    var n := Stop(s, 0);
    if n == 10 then TooManyBytes
    else if n == |s| then EndOfFile
    else Value(Masked(Bits(s[..n + 1])), n + 1)
  }

  /** How many bytes decoding reads, whether or not it succeeds. */
  function Consumed(s: seq<byte>): (c: nat)
    ensures c <= |s|
  {
    var n := Stop(s, 0);
    if n == 10 || n == |s| then n else n + 1
  }

  lemma {:induction false} VarintLength(v: nat, n: nat)
    requires n > 0
    ensures |Varint(v)| <= n <==> v < Shl(1, n)
    decreases v
  {
    if v >= 128 {
      VarintLength(v / 128, if n > 1 then n - 1 else 1);
    } else {
      ShlGrows(n);
    }
  }

  lemma {:induction false} ShlGrows(n: nat)
    requires n > 0
    ensures Shl(1, n) >= 128
  {
    if n > 1 {
      ShlGrows(n - 1);
    }
  }

  /** Spells v; only the last byte lacks the continuation bit. */
  ghost predicate Spells(e: seq<byte>, v: nat) {
    && Bits(e) == v && e != [] && e[|e| - 1] < 128
    && forall i :: 0 <= i < |e| - 1 ==> e[i] >= 128
  }

  lemma SpellsStep(e: seq<byte>, v: nat)
    requires v >= 128 && Spells(e, v / 128)
    ensures Spells([128 + v % 128] + e, v)
  {
    assert ([128 + v % 128] + e)[1..] == e;
  }

  lemma {:induction false} VarintSpells(v: nat)
    ensures Spells(Varint(v), v)
  {
    if v >= 128 {
      VarintSpells(v / 128);
      SpellsStep(Varint(v / 128), v);
    }
  }

  /** An encoding spells its number and only its last byte lacks the continuation bit. */
  lemma VarintShape(v: nat)
    ensures Bits(Varint(v)) == v
    ensures var n := |Varint(v)|; n > 0 && Varint(v)[n - 1] < 128
    ensures forall i :: 0 <= i < |Varint(v)| - 1 ==> Varint(v)[i] >= 128
  {
    VarintSpells(v);
  }

  lemma {:induction false} StopAt(s: seq<byte>, k: nat, n: nat)
    requires k <= n < |s| && k <= 10
    requires s[n] < 128 && forall i :: k <= i < n ==> s[i] >= 128
    ensures Stop(s, k) == if n < 10 then n else 10
    decreases |s| - k
  {
    if k < n && k < 10 {
      StopAt(s, k + 1, n);
    }
  }

  lemma SeventyBits()
    ensures Shl(1, 10) == 0x40_0000_0000_0000_0000
  {
    assert Shl(1, 5) == 0x8_0000_0000;
    assert Shl(1, 6) == 128 * Shl(1, 5);
    assert Shl(1, 7) == 128 * Shl(1, 6);
    assert Shl(1, 8) == 128 * Shl(1, 7);
    assert Shl(1, 9) == 128 * Shl(1, 8);
  }

  /** Decoding an encoding leaves what follows it alone. */
  lemma DecodeEncoding(v: nat, rest: seq<byte>)
    ensures Decode(Varint(v) + rest) ==
      if v < Shl(1, 10) then Value(Masked(v), |Varint(v)|) else TooManyBytes
  {
    var e := Varint(v);
    VarintLength(v, 10);
    VarintShape(v);
    StopAt(e + rest, 0, |e| - 1);
    assert (e + rest)[..|e|] == e;
  }

  /** The decoder reads back what was written if and only if it fits in 32 bits; below
      2^63 it reads the low 32 bits, from there on a negative number. */
  lemma VarintRoundTrip(v: nat, rest: seq<byte>)
    ensures v < TWO63 ==> Decode(Varint(v) + rest) == Value(Low32(v), |Varint(v)|)
    ensures TWO63 <= v < Shl(1, 10) ==> Decode(Varint(v) + rest) == Value(Low32(v) - TWO32, |Varint(v)|)
    ensures Decode(Varint(v) + rest) == Value(v, |Varint(v)|) <==> v < TWO32
  {
    DecodeEncoding(v, rest);
    SeventyBits();
  }

  // ----- messages

  type Message = seq<byte>

  function EncodeMessage(m: Message): seq<byte> {
    Varint(|m|) + m
  }

  function EncodeAll(ms: seq<Message>): seq<byte> {
    if ms == [] then [] else EncodeMessage(ms[0]) + EncodeAll(ms[1..])
  }

  /** `in_file.read(n)`: at most n bytes, or all of them if n is negative. */
  function Take(s: seq<byte>, n: int): (r: seq<byte>)
    ensures |r| <= |s|
  {
    if n < 0 || n > |s| then s else s[..n]
  }

  datatype Read = NoMessage | GotMessage(message: Message, rest: seq<byte>)

  function DecodeMessage(s: seq<byte>): (r: Read)
    ensures r.GotMessage? ==> |r.rest| < |s|
  {
    match Decode(s)
    case EndOfFile => NoMessage
    case TooManyBytes => NoMessage
    case Value(size, length) => ReadBody(s[length..], size)
  }

  /** The message of the given size at the head of s. */
  function ReadBody(s: seq<byte>, size: int): (r: Read)
    ensures r.GotMessage? ==> |r.rest| <= |s|
  {
    if size == 0 then NoMessage
    else
      var buf := Take(s, size);
      GotMessage(buf, s[|buf|..])
  }

  /** Decode messages until there is none. */
  function DecodeAll(s: seq<byte>): seq<Message>
    decreases |s|
  {
    match DecodeMessage(s)
    case NoMessage => []
    case GotMessage(m, rest) => [m] + DecodeAll(rest)
  }

  predicate Readable(m: Message) {
    1 <= |m| < TWO32
  }

  lemma DecodeOne(m: Message, rest: seq<byte>)
    requires |m| < TWO63
    ensures DecodeMessage(EncodeMessage(m) + rest) == ReadBody(m + rest, Low32(|m|))
  {
    var e, t := Varint(|m|), m + rest;
    VarintRoundTrip(|m|, t);
    Sequences.Regroup(e, m, rest);
    DecodeMessageOf(e + t, Low32(|m|), |e|);
    assert (e + t)[|e|..] == t;
  }

  lemma DecodeMessageOf(s: seq<byte>, size: int, n: nat)
    requires Decode(s) == Value(size, n)
    ensures n <= |s| && DecodeMessage(s) == ReadBody(s[n..], size)
  {
  }

  lemma ReadWhole(m: Message, rest: seq<byte>)
    requires m != []
    ensures ReadBody(m + rest, |m|) == GotMessage(m, rest)
  {
    assert (m + rest)[..|m|] == m && (m + rest)[|m|..] == rest;
  }

  lemma DecodeReadable(m: Message, rest: seq<byte>)
    requires Readable(m)
    ensures DecodeMessage(EncodeMessage(m) + rest) == GotMessage(m, rest)
  {
    DecodeOne(m, rest);
    ReadWhole(m, rest);
  }

  lemma DecodeUnreadable(m: Message, rest: seq<byte>)
    requires !Readable(m) && |m| < TWO63
    ensures var r := DecodeMessage(EncodeMessage(m) + rest); r.GotMessage? ==> |r.message| < |m|
  {
    DecodeOne(m, rest);
  }

  lemma DecodeAllStep(s: seq<byte>)
    ensures DecodeAll(s) ==
      match DecodeMessage(s)
      case NoMessage => []
      case GotMessage(m, rest) => [m] + DecodeAll(rest)
  {
  }

  lemma SameHead(m: Message, a: seq<Message>, b: seq<Message>)
    ensures [m] + a == [m] + b <==> a == b
  {
    if [m] + a == [m] + b {
      assert a == ([m] + a)[1..] == ([m] + b)[1..] == b;
    }
  }

  /** Encoding a list of messages and decoding until there is none gives the list back. */
  predicate Survives(ms: seq<Message>) {
    DecodeAll(EncodeAll(ms)) == ms
  }

  predicate AllReadable(ms: seq<Message>) {
    forall i :: 0 <= i < |ms| ==> Readable(ms[i])
  }

  lemma ReadableStep(ms: seq<Message>)
    requires ms != []
    ensures AllReadable(ms) <==> Readable(ms[0]) && AllReadable(ms[1..])
  {
    if Readable(ms[0]) && AllReadable(ms[1..]) {
      forall i | 0 <= i < |ms|
        ensures Readable(ms[i])
      {
        assert i > 0 ==> ms[i] == ms[1..][i - 1];
      }
    }
  }

  lemma NoneSurvive()
    ensures Survives([])
  {
    assert DecodeMessage([]) == NoMessage;
  }

  lemma RoundTripStep(ms: seq<Message>)
    requires ms != [] && |ms[0]| < TWO63
    ensures Survives(ms) <==> Readable(ms[0]) && Survives(ms[1..])
  {
    var m, rest := ms[0], EncodeAll(ms[1..]);
    assert ms == [m] + ms[1..];
    DecodeAllStep(EncodeMessage(m) + rest);
    if Readable(m) {
      DecodeReadable(m, rest);
      SameHead(m, DecodeAll(rest), ms[1..]);
    } else {
      DecodeUnreadable(m, rest);
    }
  }

  /** Main result: a list of messages survives encoding and decoding if and only if every
      message is non-empty and shorter than 2^32 bytes. */
  lemma {:induction false} MessagesRoundTripIff(ms: seq<Message>)
    requires forall i :: 0 <= i < |ms| ==> |ms[i]| < TWO63  // no Python string is longer
    ensures Survives(ms) <==> AllReadable(ms)
  {
    if ms == [] {
      NoneSurvive();
    } else {
      MessagesRoundTripIff(ms[1..]);
      RoundTripStep(ms);
      ReadableStep(ms);
    }
  }

  // ----- the file methods

  class InFile {
    const data: seq<byte>
    var pos: nat

    ghost predicate Valid()
      reads this
    {
      pos <= |data|
    }

    /** What is left to read. */
    function Rest(): seq<byte>
      requires Valid()
      reads this
    {
      data[pos..]
    }

    constructor (data: seq<byte>)
      ensures Valid() && Rest() == data
    {
      this.data, pos := data, 0;
    }

    method Read(n: int) returns (buf: seq<byte>)
      requires Valid()
      modifies this
      ensures Valid() && buf == Take(old(Rest()), n) && old(Rest()) == buf + Rest()
    {
      buf := Take(data[pos..], n);
      assert data[pos..][|buf|..] == data[pos + |buf|..];
      pos := pos + |buf|;
    }
  }

  lemma {:induction false} BitsOfOneMore(read: seq<byte>, b: byte)
    ensures Bits(read + [b]) == Bits(read) + Shl(Low7(b), |read|)
  {
    if read != [] {
      BitsOfOneMore(read[1..], b);
      assert (read + [b])[1..] == read[1..] + [b];
    }
  }

  ghost predicate Continues(s: seq<byte>, n: nat) {
    n <= |s| && forall i :: 0 <= i < n ==> s[i] >= 128
  }

  lemma {:induction false} StopAfter(s: seq<byte>, k: nat, n: nat)
    requires k <= n <= 10 && Continues(s, n)
    ensures Stop(s, k) == Stop(s, n)
    decreases n - k
  {
    if k < n {
      StopAfter(s, k + 1, n);
    }
  }

  /** What the byte at n decides once those before it continue. */
  lemma DecodeByte(s: seq<byte>, n: nat)
    requires n < 10 && Continues(s, n)
    ensures n == |s| ==> Decode(s) == EndOfFile && Consumed(s) == n
    ensures n < |s| ==> Bits(s[..n + 1]) == Bits(s[..n]) + Shl(Low7(s[n]), n)
    ensures n < |s| && s[n] < 128 ==> Decode(s) == Value(Masked(Bits(s[..n + 1])), n + 1) && Consumed(s) == n + 1
    ensures n < |s| && s[n] >= 128 ==>
      Continues(s, n + 1) && (n == 9 ==> Decode(s) == TooManyBytes && Consumed(s) == 10)
  {
    StopAfter(s, 0, n);
    if n < |s| {
      assert s[..n + 1] == s[..n] + [s[n]];
      BitsOfOneMore(s[..n], s[n]);
    }
  }

  /** `_DecodeVarint32`; an exception is TooManyBytes. */
  method DecodeVarint32(file: InFile) returns (r: Decoded)
    requires file.Valid()
    modifies file
    ensures file.Valid() && r == Decode(old(file.Rest()))
    ensures file.Rest() == old(file.Rest())[Consumed(old(file.Rest()))..]
  {
    var result: nat, shift: nat, pos: nat := 0, 0, 0;
    ghost var s := file.Rest();
    while true
      invariant file.Valid() && pos < 10 && shift == 7 * pos
      invariant Continues(s, pos) && result == Bits(s[..pos])
      invariant file.Rest() == s[pos..]
      decreases 10 - pos
    {
      DecodeByte(s, pos);
      var c := file.Read(1);
      if |c| == 0 {
        return EndOfFile;
      }
      var b := c[0];
      assert b == s[pos] && file.Rest() == s[pos..][1..] == s[pos + 1..];
      result := result + Shl(Low7(b), pos);
      pos := pos + 1;
      if b < 128 {
        return Value(Masked(result), pos);
      }
      shift := shift + 7;
      if shift >= 64 {
        return TooManyBytes;
      }
    }
  }

  /** The file after an attempt to read a message. */
  function Remaining(s: seq<byte>): (rest: seq<byte>)
    ensures |rest| <= |s|
  {
    var r := DecodeMessage(s);
    if r.GotMessage? then r.rest else s[Consumed(s)..]
  }

  /** `decodeMessage`; a message is read into only if the result is true. */
  method ReadMessage(file: InFile) returns (ok: bool, message: Message)
    requires file.Valid()
    modifies file
    ensures file.Valid() && file.Rest() == Remaining(old(file.Rest()))
    ensures var r := DecodeMessage(old(file.Rest())); ok == r.GotMessage? && (ok ==> message == r.message)
  {
    ghost var s := file.Rest();
    message := [];
    var size := DecodeVarint32(file);
    if !size.Value? || size.result == 0 {
      return false, message;
    }
    ghost var body := file.Rest();
    message := file.Read(size.result);
    assert s[size.length..] == body;
    assert s[size.length + |message|..] == body[|message|..];
    ok := true;
  }

  lemma AllStep(before: seq<byte>, ms: seq<Message>, ok: bool, m: Message)
    requires ok == DecodeMessage(before).GotMessage? && (ok ==> m == DecodeMessage(before).message)
    ensures ok ==> ms + DecodeAll(before) == ms + [m] + DecodeAll(Remaining(before))
    ensures ok ==> |Remaining(before)| < |before|
    ensures !ok ==> ms + DecodeAll(before) == ms
  {
    DecodeAllStep(before);
    if ok {
      Sequences.Regroup(ms, [m], DecodeAll(Remaining(before)));
    }
  }

  /** Reading messages until there is none. */
  method ReadAll(file: InFile) returns (ms: seq<Message>)
    requires file.Valid()
    modifies file
    ensures ms == DecodeAll(old(file.Rest()))
  {
    ms := [];
    ghost var s := file.Rest();
    while true
      invariant file.Valid() && DecodeAll(s) == ms + DecodeAll(file.Rest())
      decreases |file.Rest()|
    {
      ghost var before := file.Rest();
      var ok, m := ReadMessage(file);
      AllStep(before, ms, ok, m);
      if !ok {
        return;
      }
      ms := ms + [m];
    }
  }

  class OutFile {
    var data: seq<byte>

    constructor ()
      ensures data == []
    {
      data := [];
    }
  }

  /** `_EncodeVarint32`. */
  method EncodeVarint32(file: OutFile, value0: nat)
    modifies file
    ensures file.data == old(file.data) + Varint(value0)
  {
    var bits: nat, value: nat := value0 % 128, value0 / 128;
    while value != 0
      invariant bits < 128
      invariant file.data + Varint(bits + 128 * value) == old(file.data) + Varint(value0)
      decreases value
    {
      ghost var v := bits + 128 * value;
      assert v % 128 == bits && v / 128 == value;
      assert file.data + Varint(v) == file.data + [128 + bits] + Varint(value);
      file.data := file.data + [128 + bits];
      bits := value % 128;
      value := value / 128;
    }
    file.data := file.data + [bits];
  }

  /** `encodeMessage`. */
  method WriteMessage(file: OutFile, message: Message)
    modifies file
    ensures file.data == old(file.data) + EncodeMessage(message)
  {
    EncodeVarint32(file, |message|);
    file.data := file.data + message;
    assert old(file.data) + Varint(|message|) + message == old(file.data) + EncodeMessage(message);
  }
}
