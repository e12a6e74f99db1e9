/** The manifest of a frozen tree: one CBOR map, written straight through, with a loop a list. */
module Manifest {
  import opened Options
  import opened Layout
  import opened Bytes
  import opened Cbor

  datatype EdgeRecord = EdgeRecord(parent: u32, child: u32, kind: u32, capacity: u32, head: u64)

  datatype Span = Span(oldest: i64, newest: i64)

  /** What one read of an edge gives: its record if it has one, the samples its ring stores, and their span. */
  datatype EdgeView = EdgeView(record: Option<EdgeRecord>, stored: u64, span: Option<Span>)

  /** The tree as the manifest sees it. Frame and edge ids start at one, and `edges` counts the sentinel too. */
  datatype Tree = Tree(
    version: seq<byte>,
    formatVersion: u32,
    layoutHash: u32,
    frames: u32,
    frameName: nat -> Option<seq<byte>>,
    edges: u32,
    edge: nat -> EdgeView)

  function Ascii(s: string): (r: seq<byte>)
    ensures |r| == |s|
  {
    seq(|s|, i requires 0 <= i < |s| => (s[i] as int) % 0x100)
  }

  function SaturatingSub(a: nat, b: nat): nat {
    if a < b then 0 else a - b
  }

  ghost predicate Writable(t: Tree) {
    && |t.version| <= U64_MAX
    && forall i {:trigger t.frameName(i)} :: t.frameName(i).Some? ==> |t.frameName(i).value| <= U64_MAX
  }

  // ---------------------------------------------------------------------------------------------
  // The item a manifest is
  // ---------------------------------------------------------------------------------------------

  function NameOf(t: Tree, i: nat): Item {
    match t.frameName(i)
    case Some(name) => Text(name)
    case None => Text([])
  }

  function FrameItems(t: Tree): (r: seq<Item>)
    ensures |r| == t.frames
  {
    seq(t.frames, i requires 0 <= i < t.frames => NameOf(t, i + 1))
  }

  function NanosOr(v: Option<i64>): Item {
    match v
    case Some(n) => Signed(n)
    case None => Null
  }

  /** A key and its value, as they stand in a map. */
  function Pair(key: string, value: Item): (r: seq<Item>)
    ensures |r| == 2
  {
    [Text(Ascii(key)), value]
  }

  function RecordFields(x: EdgeRecord): (r: seq<Item>)
    ensures |r| == 8 && forall i :: 0 <= i < |r| ==> Encodable(r[i])
  {
    Pair("parent", Unsigned(x.parent)) + Pair("child", Unsigned(x.child)) + Pair("kind", Unsigned(x.kind))
    + Pair("capacity", Unsigned(x.capacity))
  }

  function RingFields(e: EdgeView, pushes: u64): (r: seq<Item>)
    ensures |r| == 8 && forall i :: 0 <= i < |r| ==> Encodable(r[i])
  {
    Pair("samples", Unsigned(e.stored)) + Pair("pushes_total", Unsigned(pushes))
    + Pair("oldest_ns", NanosOr(if e.span.Some? then Some(e.span.value.oldest) else None))
    + Pair("newest_ns", NanosOr(if e.span.Some? then Some(e.span.value.newest) else None))
  }

  /** An edge without a record reads as zeros. */
  function RecordOf(e: EdgeView): EdgeRecord {
    match e.record
    case Some(x) => x
    case None => EdgeRecord(0, 0, 0, 0, 0)
  }

  function EdgeFields(e: EdgeView): (r: seq<Item>)
    ensures |r| == 16 && forall i :: 0 <= i < |r| ==> Encodable(r[i])
  {
    RecordFields(RecordOf(e)) + RingFields(e, RecordOf(e).head)
  }

  function EdgeItem(e: EdgeView): Item {
    Map(EdgeFields(e))
  }

  function EdgeItems(t: Tree): (r: seq<Item>)
    ensures |r| == SaturatingSub(t.edges, 1)
  {
    seq(SaturatingSub(t.edges, 1), i requires 0 <= i < SaturatingSub(t.edges, 1) => EdgeItem(t.edge(i + 1)))
  }

  function SourceItem(source: Option<seq<byte>>): Item {
    match source
    case Some(s) => Text(s)
    case None => Null
  }

  function Preamble(t: Tree, created: i64, source: Option<seq<byte>>): (r: seq<Item>)
    ensures |r| == 10
  {
    Pair("tf_tree", Text(t.version)) + Pair("format_version", Unsigned(t.formatVersion))
    + Pair("layout_hash", Unsigned(t.layoutHash)) + Pair("created_unix_ns", Signed(created))
    + Pair("source", SourceItem(source))
  }

  function Fields(t: Tree, created: i64, source: Option<seq<byte>>): (r: seq<Item>)
    ensures |r| == 14
  {
    Preamble(t, created, source) + Pair("frames", Array(FrameItems(t))) + Pair("edges", Array(EdgeItems(t)))
  }

  lemma {:induction false} FieldsEncodable(t: Tree, created: i64, source: Option<seq<byte>>)
    requires Writable(t) && (source.Some? ==> |source.value| <= U64_MAX)
    ensures forall i :: 0 <= i < |FrameItems(t)| ==> Encodable(FrameItems(t)[i])
    ensures forall i :: 0 <= i < |EdgeItems(t)| ==> Encodable(EdgeItems(t)[i])
    ensures forall i :: 0 <= i < |Fields(t, created, source)| ==> Encodable(Fields(t, created, source)[i])
  {
    forall i | 0 <= i < |FrameItems(t)| ensures Encodable(FrameItems(t)[i]) {
      assert FrameItems(t)[i] == NameOf(t, i + 1);
    }
    forall i | 0 <= i < |EdgeItems(t)| ensures Encodable(EdgeItems(t)[i]) {
      assert EdgeItems(t)[i] == EdgeItem(t.edge(i + 1));
    }
  }

  /** A list is being written: `out` is `before`, and then exactly `items`. */
  predicate Holds(out: seq<byte>, before: seq<byte>, items: seq<Item>) {
    && (forall i :: 0 <= i < |items| ==> Encodable(items[i]))
    && out == before + EncodeAll(items)
  }

  lemma {:induction false} OneItem(item: Item)
    requires Encodable(item)
    ensures EncodeAll([item]) == Encode(item)
  {
    var list := [item];
    assert list[1..] == [] && EncodeAll(list) == Encode(list[0]) + EncodeAll(list[1..]);
  }

  lemma {:induction false} Wrote(was: seq<byte>, out: seq<byte>, before: seq<byte>, items: seq<Item>, item: Item)
    requires Holds(was, before, items) && Encodable(item) && out == was + Encode(item)
    ensures Holds(out, before, items + [item])
  {
    EncodeAllAppend(items, [item]);
    OneItem(item);
    Appended(before, EncodeAll(items), Encode(item));
  }

  lemma {:induction false} Appended(a: seq<byte>, b: seq<byte>, c: seq<byte>)
    ensures a + (b + c) == a + b + c
  {
  }

  // ---------------------------------------------------------------------------------------------
  // Writing it
  // ---------------------------------------------------------------------------------------------

  method PutText(w: Writer, s: seq<byte>, ghost before: seq<byte>, ghost items: seq<Item>)
    requires Holds(w.out, before, items) && |s| <= U64_MAX
    modifies w
    ensures Holds(w.out, before, items + [Text(s)])
  {
    w.WriteText(s);
    Wrote(old(w.out), w.out, before, items, Text(s));
  }

  lemma {:induction false} PairHolds(out: seq<byte>, before: seq<byte>, items: seq<Item>, key: string, value: Item)
    requires Holds(out, before, items + [Text(Ascii(key))] + [value])
    ensures Holds(out, before, items + Pair(key, value))
  {
    assert items + [Text(Ascii(key))] + [value] == items + Pair(key, value);
  }

  method PutU64(w: Writer, key: string, n: u64, ghost before: seq<byte>, ghost items: seq<Item>)
    requires Holds(w.out, before, items) && |key| <= U64_MAX
    modifies w
    ensures Holds(w.out, before, items + Pair(key, Unsigned(n)))
  {
    PutText(w, Ascii(key), before, items);
    label value: w.U64(n);
    Wrote(old@value(w.out), w.out, before, items + [Text(Ascii(key))], Unsigned(n));
    PairHolds(w.out, before, items, key, Unsigned(n));
  }

  method PutNanos(w: Writer, key: string, v: Option<i64>, ghost before: seq<byte>, ghost items: seq<Item>)
    requires Holds(w.out, before, items) && |key| <= U64_MAX
    modifies w
    ensures Holds(w.out, before, items + Pair(key, NanosOr(v)))
  {
    PutText(w, Ascii(key), before, items);
    label value: match v {
      case Some(n) => w.I64(n);
      case None => w.WriteNull();
    }
    Wrote(old@value(w.out), w.out, before, items + [Text(Ascii(key))], NanosOr(v));
    PairHolds(w.out, before, items, key, NanosOr(v));
  }

  method PutString(w: Writer, key: string, s: Option<seq<byte>>, ghost before: seq<byte>, ghost items: seq<Item>)
    requires Holds(w.out, before, items) && |key| <= U64_MAX && (s.Some? ==> |s.value| <= U64_MAX)
    modifies w
    ensures Holds(w.out, before, items + Pair(key, SourceItem(s)))
  {
    PutText(w, Ascii(key), before, items);
    label value: match s {
      case Some(text) => w.WriteText(text);
      case None => w.WriteNull();
    }
    Wrote(old@value(w.out), w.out, before, items + [Text(Ascii(key))], SourceItem(s));
    PairHolds(w.out, before, items, key, SourceItem(s));
  }

  method PutEdge(w: Writer, e: EdgeView, ghost before: seq<byte>, ghost items: seq<Item>, ghost item: Item)
    requires Holds(w.out, before, items) && item == EdgeItem(e)
    modifies w
    ensures Holds(w.out, before, items + [item])
  {
    PutEdgeMap(w, e);
    Wrote(old(w.out), w.out, before, items, item);
  }

  method PutEdgeMap(w: Writer, e: EdgeView)
    modifies w
    ensures w.out == old(w.out) + Encode(Map(EdgeFields(e)))
  {
    var x := RecordOf(e);
    w.WriteMap(8);
    ghost var before := w.out;
    ghost var first := Pair("parent", Unsigned(x.parent));
    ghost var second := first + Pair("child", Unsigned(x.child));
    ghost var third := second + Pair("kind", Unsigned(x.kind));
    assert [] + first == first;
    PutU64(w, "parent", x.parent, before, []);
    PutU64(w, "child", x.child, before, first);
    PutU64(w, "kind", x.kind, before, second);
    PutU64(w, "capacity", x.capacity, before, third);
    PutRing(w, e, x.head, before, RecordFields(x));
  }

  method PutRing(w: Writer, e: EdgeView, pushes: u64, ghost before: seq<byte>, ghost items: seq<Item>)
    requires Holds(w.out, before, items)
    modifies w
    ensures Holds(w.out, before, items + RingFields(e, pushes))
  {
    var oldest := if e.span.Some? then Some(e.span.value.oldest) else None;
    var newest := if e.span.Some? then Some(e.span.value.newest) else None;
    ghost var first := items + Pair("samples", Unsigned(e.stored));
    ghost var second := first + Pair("pushes_total", Unsigned(pushes));
    ghost var third := second + Pair("oldest_ns", NanosOr(oldest));
    PutU64(w, "samples", e.stored, before, items);
    PutU64(w, "pushes_total", pushes, before, first);
    PutNanos(w, "oldest_ns", oldest, before, second);
    PutNanos(w, "newest_ns", newest, before, third);
    assert items + RingFields(e, pushes) == third + Pair("newest_ns", NanosOr(newest));
  }

  method PutFrames(w: Writer, t: Tree)
    requires Writable(t) && Encodable(Array(FrameItems(t)))
    modifies w
    ensures w.out == old(w.out) + Encode(Array(FrameItems(t)))
  {
    w.WriteArray(t.frames);
    ghost var before, items := w.out, [];
    for i := 1 to t.frames + 1
      invariant items == FrameItems(t)[..i - 1] && Holds(w.out, before, items)
    {
      var name := match t.frameName(i) case Some(s) => s case None => [];
      PutText(w, name, before, items);
      items := items + [Text(name)];
    }
    assert FrameItems(t)[..t.frames] == FrameItems(t);
  }

  /** Item `i` of the list is what is written for edge id i + 1. */
  ghost predicate EdgeAt(t: Tree, list: seq<Item>, i: nat)
    requires i < |list|
  {
    list[i] == EdgeItem(t.edge(i + 1))
  }

  method PutEdgeAt(w: Writer, t: Tree, i: nat, ghost before: seq<byte>, ghost list: seq<Item>)
    requires 1 <= i <= |list| && EdgeAt(t, list, i - 1) && Holds(w.out, before, list[..i - 1])
    modifies w
    ensures Holds(w.out, before, list[..i])
  {
    assert list[..i - 1] + [list[i - 1]] == list[..i];
    PutEdge(w, t.edge(i), before, list[..i - 1], list[i - 1]);
  }

  method PutEdges(w: Writer, t: Tree, ghost list: seq<Item>)
    requires Encodable(Array(list)) && |list| == SaturatingSub(t.edges, 1)
    requires forall i: nat {:trigger EdgeAt(t, list, i)} :: i < |list| ==> EdgeAt(t, list, i)
    modifies w
    ensures w.out == old(w.out) + Encode(Array(list))
  {
    w.WriteArray(SaturatingSub(t.edges, 1));
    ghost var before := w.out;
    assert list[..0] == [];
    var i := 1;
    while i < t.edges
      invariant 1 <= i && i - 1 <= |list| && Holds(w.out, before, list[..i - 1])
    {
      PutEdgeAt(w, t, i, before, list);
      i := i + 1;
    }
    assert list[..|list|] == list;
  }

  method PutPreamble(w: Writer, t: Tree, source: Option<seq<byte>>, created: i64, ghost before: seq<byte>)
    requires Writable(t) && (source.Some? ==> |source.value| <= U64_MAX) && w.out == before
    modifies w
    ensures Holds(w.out, before, Preamble(t, created, source))
  {
    ghost var first := Pair("tf_tree", Text(t.version));
    ghost var second := first + Pair("format_version", Unsigned(t.formatVersion));
    ghost var third := second + Pair("layout_hash", Unsigned(t.layoutHash));
    ghost var fourth := third + Pair("created_unix_ns", Signed(created));
    assert [] + first == first;
    PutString(w, "tf_tree", Some(t.version), before, []);
    PutU64(w, "format_version", t.formatVersion, before, first);
    PutU64(w, "layout_hash", t.layoutHash, before, second);
    PutNanos(w, "created_unix_ns", Some(created), before, third);
    PutString(w, "source", source, before, fourth);
  }

  method PutLists(w: Writer, t: Tree, ghost before: seq<byte>, ghost items: seq<Item>)
    requires Writable(t) && Encodable(Array(FrameItems(t))) && Encodable(Array(EdgeItems(t)))
    requires Holds(w.out, before, items)
    modifies w
    ensures Holds(w.out, before, items + Pair("frames", Array(FrameItems(t))) + Pair("edges", Array(EdgeItems(t))))
  {
    ghost var frames, edges := Array(FrameItems(t)), Array(EdgeItems(t));
    PutText(w, Ascii("frames"), before, items);
    ghost var was := w.out;
    PutFrames(w, t);
    Wrote(was, w.out, before, items + [Text(Ascii("frames"))], frames);
    PairHolds(w.out, before, items, "frames", frames);
    PutText(w, Ascii("edges"), before, items + Pair("frames", frames));
    was := w.out;
    PutEdges(w, t, EdgeItems(t));
    Wrote(was, w.out, before, items + Pair("frames", frames) + [Text(Ascii("edges"))], edges);
    PairHolds(w.out, before, items + Pair("frames", frames), "edges", edges);
  }

  /** The bytes are one complete item and nothing after it; its lists hold as many items as they announce. */
  method WriteManifest(t: Tree, source: Option<seq<byte>>, created: i64) returns (out: seq<byte>)
    requires Writable(t) && (source.Some? ==> |source.value| <= U64_MAX)
    ensures Encodable(Map(Fields(t, created, source))) && out == Encode(Map(Fields(t, created, source)))
    ensures Decode(out) == Some(Decoded(Map(Fields(t, created, source)), []))
  {
    FieldsEncodable(t, created, source);
    var w := new Writer();
    w.WriteMap(7);
    ghost var before := w.out;
    PutPreamble(w, t, source, created, before);
    PutLists(w, t, before, Preamble(t, created, source));
    out := w.out;
    RoundTrip(Map(Fields(t, created, source)), []);
    assert out + [] == out;
  }

  /** A number in a map, or nothing. */
  function OrNull(v: Option<i64>): Item {
    match v
    case None => Null
    case Some(n) => if n < 0 then Negative(-1 - n) else Unsigned(n)
  }

  /** An edge's map, key by key; an edge without a record reads as zeros. */
  lemma {:induction false} WhatAnEdgeSays(e: EdgeView)
    ensures var of := EdgeFields(e);
            var x := if e.record.Some? then e.record.value else EdgeRecord(0, 0, 0, 0, 0);
            && of[0] == Text(Ascii("parent")) && of[1] == Unsigned(x.parent)
            && of[2] == Text(Ascii("child")) && of[3] == Unsigned(x.child)
            && of[4] == Text(Ascii("kind")) && of[5] == Unsigned(x.kind)
            && of[6] == Text(Ascii("capacity")) && of[7] == Unsigned(x.capacity)
            && of[8] == Text(Ascii("samples")) && of[9] == Unsigned(e.stored)
            && of[10] == Text(Ascii("pushes_total")) && of[11] == Unsigned(x.head)
            && of[12] == Text(Ascii("oldest_ns"))
            && of[13] == OrNull(if e.span.Some? then Some(e.span.value.oldest) else None)
            && of[14] == Text(Ascii("newest_ns"))
            && of[15] == OrNull(if e.span.Some? then Some(e.span.value.newest) else None)
  {
  }

  /** The manifest's own map, key by key; frame and edge ids start at one, and the edges' sentinel is not listed. */
  lemma {:induction false} WhatAManifestSays(t: Tree, created: i64, source: Option<seq<byte>>)
    ensures var of := Fields(t, created, source);
            && of[0] == Text(Ascii("tf_tree")) && of[1] == Text(t.version)
            && of[2] == Text(Ascii("format_version")) && of[3] == Unsigned(t.formatVersion)
            && of[4] == Text(Ascii("layout_hash")) && of[5] == Unsigned(t.layoutHash)
            && of[6] == Text(Ascii("created_unix_ns")) && of[7] == OrNull(Some(created))
            && of[8] == Text(Ascii("source")) && of[9] == (if source.Some? then Text(source.value) else Null)
            && of[10] == Text(Ascii("frames")) && of[11] == Array(FrameItems(t))
            && of[12] == Text(Ascii("edges")) && of[13] == Array(EdgeItems(t))
    ensures |EdgeItems(t)| == if t.edges == 0 then 0 else t.edges - 1
    ensures forall i :: 0 <= i < |EdgeItems(t)| ==> EdgeItems(t)[i] == Map(EdgeFields(t.edge(i + 1)))
    ensures forall i :: 0 <= i < t.frames ==>
              FrameItems(t)[i] == Text(if t.frameName(i + 1).Some? then t.frameName(i + 1).value else [])
  {
  }

  /** The text of a key is its characters' codes. */
  lemma {:induction false} AsciiIsTheCodes(s: string)
    requires forall i :: 0 <= i < |s| ==> s[i] as int < 0x80
    ensures forall i :: 0 <= i < |s| ==> Ascii(s)[i] == s[i] as int
  {
  }
}
