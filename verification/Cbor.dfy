/**
 The writer of the manifest's CBOR subset (RFC 8949), definite lengths only, and a decoder after
 sections 3 and 3.1 of that document to hold it against. The decoder takes an argument in any width.
 */
module Cbor {
  import opened Options
  import opened Layout
  import opened Bytes

  const I64_MIN := -0x8000_0000_0000_0000
  const I64_MAX := 0x7FFF_FFFF_FFFF_FFFF

  type i64 = n: int | I64_MIN <= n <= I64_MAX

  /** A data item. `Negative(n)` is the integer -1 - n; a map's keys and values alternate. */
  datatype Item =
    | Unsigned(n: u64)
    | Negative(n: u64)
    | Text(utf8: seq<byte>)
    | Array(items: seq<Item>)
    | Map(entries: seq<Item>)
    | Null

  /** Lengths fit the argument, and a map's keys have values. */
  predicate Encodable(item: Item) {
    match item
    case Text(s) => |s| <= U64_MAX
    case Array(items) => |items| <= U64_MAX && forall i :: 0 <= i < |items| ==> Encodable(items[i])
    case Map(entries) =>
      |entries| % 2 == 0 && |entries| / 2 <= U64_MAX && forall i :: 0 <= i < |entries| ==> Encodable(entries[i])
    case _ => true
  }

  // ---------------------------------------------------------------------------------------------
  // Heads
  // ---------------------------------------------------------------------------------------------

  /** `n` in `width` bytes, most significant first. */
  function Be(n: nat, width: nat): (r: seq<byte>)
    ensures |r| == width
  {
    if width == 0 then [] else Be(n / 0x100, width - 1) + [n % 0x100]
  }

  function FromBe(s: seq<byte>): nat {
    if s == [] then 0 else 0x100 * FromBe(s[..|s| - 1]) + s[|s| - 1] as nat
  }

  function Pow256(width: nat): nat {
    if width == 0 then 1 else 0x100 * Pow256(width - 1)
  }

  lemma {:induction false} BeRoundTrip(n: nat, width: nat)
    requires n < Pow256(width)
    ensures FromBe(Be(n, width)) == n
    decreases width
  {
    if width > 0 {
      assert Be(n, width)[..width - 1] == Be(n / 0x100, width - 1);
      BeRoundTrip(n / 0x100, width - 1);
    }
  }

  lemma {:induction false} FromBeBound(s: seq<byte>)
    ensures FromBe(s) < Pow256(|s|)
    decreases |s|
  {
    if s != [] {
      FromBeBound(s[..|s| - 1]);
    }
  }

  lemma {:induction false} Powers()
    ensures Pow256(1) == 0x100 && Pow256(2) == 0x1_0000 && Pow256(4) == U32_MAX + 1 && Pow256(8) == U64_MAX + 1
  {
    assert Pow256(4) == 0x100 * Pow256(3) && Pow256(3) == 0x100 * Pow256(2) && Pow256(2) == 0x100 * Pow256(1);
    assert Pow256(8) == 0x100 * Pow256(7) && Pow256(7) == 0x100 * Pow256(6) && Pow256(6) == 0x100 * Pow256(5);
    assert Pow256(5) == 0x100 * Pow256(4);
  }

  /** The bytes of a head whose argument has the width its additional information `info` says. */
  function HeadAs(major: nat, info: nat, arg: u64, width: nat): (r: seq<byte>)
    requires major < 8 && info < 32
    ensures |r| == 1 + width
  {
    [major * 32 + info] + Be(arg, width)
  }

  function HeadBytes(major: nat, arg: u64): (r: seq<byte>)
    requires major < 8
    ensures |r| > 0
  {
    if arg < 24 then HeadAs(major, arg, arg, 0)
    else if arg < 0x100 then HeadAs(major, 24, arg, 1)
    else if arg < 0x1_0000 then HeadAs(major, 25, arg, 2)
    else if arg <= U32_MAX then HeadAs(major, 26, arg, 4)
    else HeadAs(major, 27, arg, 8)
  }

  datatype Head = Head(major: nat, arg: nat, rest: seq<byte>)

  /** How many argument bytes follow an initial byte; 28 to 31 have no meaning here. */
  function ArgumentWidth(info: nat): Option<nat> {
    if info < 24 then Some(0)
    else if info == 24 then Some(1)
    else if info == 25 then Some(2)
    else if info == 26 then Some(4)
    else if info == 27 then Some(8)
    else None
  }

  function DecodeHead(bs: seq<byte>): (r: Option<Head>)
    ensures r.Some? ==> |r.value.rest| < |bs|
  {
    if bs == [] then None
    else
      var first: nat := bs[0];
      match ArgumentWidth(first % 32)
      case None => None
      case Some(w) =>
        if |bs| < 1 + w then None
        else Some(Head(first / 32, if w == 0 then first % 32 else FromBe(bs[1..1 + w]), bs[1 + w..]))
  }

  lemma {:induction false} FirstByte(major: nat, info: nat)
    requires info < 32
    ensures (major * 32 + info) / 32 == major && (major * 32 + info) % 32 == info
  {
  }

  lemma {:induction false} HeadAsDecodes(major: nat, info: nat, arg: u64, width: nat, rest: seq<byte>)
    requires major < 8 && info < 32 && ArgumentWidth(info) == Some(width)
    requires if width == 0 then arg == info else arg < Pow256(width)
    ensures DecodeHead(HeadAs(major, info, arg, width) + rest) == Some(Head(major, arg, rest))
  {
    var bs := HeadAs(major, info, arg, width) + rest;
    HeadParts(major, info, arg, width, rest);
    FirstByte(major, info);
    if width > 0 {
      BeRoundTrip(arg, width);
    }
    var first: nat := bs[0];
    assert first / 32 == major && first % 32 == info;
  }

  lemma {:induction false} HeadParts(major: nat, info: nat, arg: u64, width: nat, rest: seq<byte>)
    requires major < 8 && info < 32
    ensures var bs := HeadAs(major, info, arg, width) + rest;
            && bs != [] && bs[0] == major * 32 + info && |bs| >= 1 + width
            && bs[1..1 + width] == Be(arg, width) && bs[1 + width..] == rest
  {
    var head, be := major * 32 + info, Be(arg, width);
    var bs := HeadAs(major, info, arg, width) + rest;
    assert bs == [head] + be + rest;
  }

  lemma {:induction false} HeadRoundTrip(major: nat, arg: u64, rest: seq<byte>)
    requires major < 8
    ensures DecodeHead(HeadBytes(major, arg) + rest) == Some(Head(major, arg, rest))
  {
    Powers();
    if arg < 24 {
      HeadAsDecodes(major, arg, arg, 0, rest);
    } else if arg < 0x100 {
      HeadAsDecodes(major, 24, arg, 1, rest);
    } else if arg < 0x1_0000 {
      HeadAsDecodes(major, 25, arg, 2, rest);
    } else if arg <= U32_MAX {
      HeadAsDecodes(major, 26, arg, 4, rest);
    } else {
      HeadAsDecodes(major, 27, arg, 8, rest);
    }
  }

  /** Section 4.2.1: no head the decoder takes for the same major type and argument is shorter. */
  lemma {:induction false} HeadIsShortest(bs: seq<byte>, arg: u64)
    requires DecodeHead(bs).Some? && DecodeHead(bs).value.arg == arg
    ensures DecodeHead(bs).value.major < 8
    ensures |bs| - |DecodeHead(bs).value.rest| >= |HeadBytes(DecodeHead(bs).value.major, arg)|
  {
    Powers();
    var first: nat := bs[0];
    var w := ArgumentWidth(first % 32).value;
    FromBeBound(bs[1..1 + w]);
  }

  // ---------------------------------------------------------------------------------------------
  // Items
  // ---------------------------------------------------------------------------------------------

  function Encode(item: Item): (r: seq<byte>)
    requires Encodable(item)
    ensures |r| > 0
  {
    match item
    case Unsigned(n) => HeadBytes(0, n)
    case Negative(n) => HeadBytes(1, n)
    case Text(s) => HeadBytes(3, |s|) + s
    case Array(items) => HeadBytes(4, |items|) + EncodeAll(items)
    case Map(entries) => HeadBytes(5, |entries| / 2) + EncodeAll(entries)
    case Null => [0xF6]
  }

  function EncodeAll(items: seq<Item>): seq<byte>
    requires forall i :: 0 <= i < |items| ==> Encodable(items[i])
  {
    if items == [] then [] else Encode(items[0]) + EncodeAll(items[1..])
  }

  datatype Decoded<T> = Decoded(value: T, rest: seq<byte>)

  function Decode(bs: seq<byte>): (r: Option<Decoded<Item>>)
    ensures r.Some? ==> |r.value.rest| < |bs|
    decreases |bs|, 0
  {
    match DecodeHead(bs)
    case None => None
    case Some(Head(major, arg, rest)) =>
      if arg > U64_MAX then None
      else if major == 0 then Some(Decoded(Unsigned(arg), rest))
      else if major == 1 then Some(Decoded(Negative(arg), rest))
      else if major == 3 then (if arg <= |rest| then Some(Decoded(Text(rest[..arg]), rest[arg..])) else None)
      else if major == 4 then
        (match DecodeMany(rest, arg) case None => None case Some(d) => Some(Decoded(Array(d.value), d.rest)))
      else if major == 5 then
        (match DecodeMany(rest, 2 * arg) case None => None case Some(d) => Some(Decoded(Map(d.value), d.rest)))
      else if major == 7 && bs[0] == 0xF6 then Some(Decoded(Null, rest))
      else None
  }

  function DecodeMany(bs: seq<byte>, n: nat): (r: Option<Decoded<seq<Item>>>)
    ensures r.Some? ==> |r.value.rest| <= |bs|
    decreases |bs|, 1
  {
    if n == 0 then Some(Decoded([], bs))
    else
      match Decode(bs)
      case None => None
      case Some(first) =>
        match DecodeMany(first.rest, n - 1)
        case None => None
        case Some(more) => Some(Decoded([first.value] + more.value, more.rest))
  }

  lemma {:induction false} ListDecodes(bs: seq<byte>, items: seq<Item>, asMap: bool, rest: seq<byte>, more: seq<byte>)
    requires asMap ==> |items| % 2 == 0
    requires |items| <= U64_MAX || (asMap && |items| / 2 <= U64_MAX)
    requires DecodeHead(bs) == Some(Head(if asMap then 5 else 4, if asMap then |items| / 2 else |items|, rest))
    requires DecodeMany(rest, |items|) == Some(Decoded(items, more))
    ensures Decode(bs) == Some(Decoded(if asMap then Map(items) else Array(items), more))
  {
  }

  lemma {:induction false} TextDecodes(s: seq<byte>, rest: seq<byte>)
    requires |s| <= U64_MAX
    ensures Decode(HeadBytes(3, |s|) + (s + rest)) == Some(Decoded(Text(s), rest))
  {
    HeadRoundTrip(3, |s|, s + rest);
    assert (s + rest)[..|s|] == s && (s + rest)[|s|..] == rest;
  }

  lemma {:induction false} NullDecodes(rest: seq<byte>)
    ensures Decode([0xF6] + rest) == Some(Decoded(Null, rest))
  {
    assert HeadAs(7, 22, 22, 0) == [0xF6] + Be(22, 0);
    HeadAsDecodes(7, 22, 22, 0, rest);
  }

  lemma {:induction false} IntegerDecodes(n: u64, rest: seq<byte>)
    ensures Decode(HeadBytes(0, n) + rest) == Some(Decoded(Unsigned(n), rest))
    ensures Decode(HeadBytes(1, n) + rest) == Some(Decoded(Negative(n), rest))
  {
    HeadRoundTrip(0, n, rest);
    HeadRoundTrip(1, n, rest);
  }

  /** The decoder undoes the encoder, and takes exactly the bytes of the one item. */
  lemma {:induction false} RoundTrip(item: Item, rest: seq<byte>)
    requires Encodable(item)
    ensures Decode(Encode(item) + rest) == Some(Decoded(item, rest))
    decreases item, 0
  {
    match item
    case Unsigned(n) => IntegerDecodes(n, rest);
    case Negative(n) => IntegerDecodes(n, rest);
    case Text(s) =>
      assert Encode(item) + rest == HeadBytes(3, |s|) + (s + rest);
      TextDecodes(s, rest);
    case Array(items) => ArrayRoundTrip(items, rest);
    case Map(entries) => MapRoundTrip(entries, rest);
    case Null => NullDecodes(rest);
  }

  lemma {:induction false} ArrayRoundTrip(items: seq<Item>, rest: seq<byte>)
    requires Encodable(Array(items))
    ensures Decode(Encode(Array(items)) + rest) == Some(Decoded(Array(items), rest))
    decreases items, 2
  {
    var head, body := HeadBytes(4, |items|), EncodeAll(items) + rest;
    assert Encode(Array(items)) + rest == head + body;
    HeadRoundTrip(4, |items|, body);
    ManyRoundTrip(items, rest);
    ListDecodes(head + body, items, false, body, rest);
  }

  lemma {:induction false} MapRoundTrip(entries: seq<Item>, rest: seq<byte>)
    requires Encodable(Map(entries))
    ensures Decode(Encode(Map(entries)) + rest) == Some(Decoded(Map(entries), rest))
    decreases entries, 2
  {
    var head, body := HeadBytes(5, |entries| / 2), EncodeAll(entries) + rest;
    assert Encode(Map(entries)) + rest == head + body;
    HeadRoundTrip(5, |entries| / 2, body);
    ManyRoundTrip(entries, rest);
    ListDecodes(head + body, entries, true, body, rest);
  }

  lemma {:induction false} ManyRoundTrip(items: seq<Item>, rest: seq<byte>)
    requires forall i :: 0 <= i < |items| ==> Encodable(items[i])
    ensures DecodeMany(EncodeAll(items) + rest, |items|) == Some(Decoded(items, rest))
    decreases items, 1
  {
    if items == [] {
      assert EncodeAll(items) + rest == rest;
    } else {
      assert EncodeAll(items) + rest == Encode(items[0]) + (EncodeAll(items[1..]) + rest);
      RoundTrip(items[0], EncodeAll(items[1..]) + rest);
      ManyRoundTrip(items[1..], rest);
      assert [items[0]] + items[1..] == items;
    }
  }

  lemma {:induction false} EncodeAllAppend(a: seq<Item>, b: seq<Item>)
    requires forall i :: 0 <= i < |a| ==> Encodable(a[i])
    requires forall i :: 0 <= i < |b| ==> Encodable(b[i])
    ensures forall i :: 0 <= i < |a + b| ==> Encodable((a + b)[i])
    ensures EncodeAll(a + b) == EncodeAll(a) + EncodeAll(b)
    decreases |a|
  {
    if a == [] {
      assert a + b == b;
    } else {
      assert (a + b)[1..] == a[1..] + b;
      EncodeAllAppend(a[1..], b);
    }
  }

  /** The integer an item stands for. */
  function IntegerOf(item: Item): Option<int> {
    match item
    case Unsigned(n) => Some(n)
    case Negative(n) => Some(-1 - n)
    case _ => None
  }

  function Signed(v: i64): (r: Item)
    ensures IntegerOf(r) == Some(v)
  {
    if v >= 0 then Unsigned(v) else Negative(-1 - v)
  }

  /** `v as u64`: two's complement. */
  function AsU64(v: i64): u64 {
    if v >= 0 then v else v + U64_MAX + 1
  }

  /** The writer. Announced counts are the caller's business. */
  class Writer {
    var out: seq<byte>

    constructor ()
      ensures out == []
    {
      out := [];
    }

    method WriteHead(major: nat, arg: u64)
      requires major < 8
      modifies this
      ensures out == old(out) + HeadBytes(major, arg)
    {
      var m := major * 32;
      if arg < 24 {
        out := out + [m + arg];
      } else if arg <= 0xFF {
        out := out + [m + 24];
        out := out + [arg];
        assert Be(arg, 1) == Be(arg / 0x100, 0) + [arg];
      } else if arg <= 0xFFFF {
        out := out + [m + 25];
        out := out + Be(arg, 2);
      } else if arg <= U32_MAX {
        out := out + [m + 26];
        out := out + Be(arg, 4);
      } else {
        out := out + [m + 27];
        out := out + Be(arg, 8);
      }
    }

    method U64(v: u64)
      modifies this
      ensures out == old(out) + Encode(Unsigned(v))
    {
      WriteHead(0, v);
    }

    /** The complement of the two's complement is -1 - v, which needs no negation of the least integer. */
    method I64(v: i64)
      modifies this
      ensures out == old(out) + Encode(Signed(v))
    {
      if v >= 0 {
        WriteHead(0, AsU64(v));
      } else {
        WriteHead(1, U64_MAX - AsU64(v));
      }
    }

    method WriteText(s: seq<byte>)
      requires |s| <= U64_MAX
      modifies this
      ensures out == old(out) + Encode(Text(s))
    {
      WriteHead(3, |s|);
      out := out + s;
    }

    method WriteNull()
      modifies this
      ensures out == old(out) + Encode(Null)
    {
      out := out + [0xF6];
    }

    method WriteArray(n: u64)
      modifies this
      ensures out == old(out) + HeadBytes(4, n)
    {
      WriteHead(4, n);
    }

    method WriteMap(n: u64)
      modifies this
      ensures out == old(out) + HeadBytes(5, n)
    {
      WriteHead(5, n);
    }
  }
}
