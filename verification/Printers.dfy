/** The request encoder and the value formatter: both fill their output piece by piece, and what
    they write is the printed form of a reply tree. */
module Printers {
  import opened Common
  import opened Decimal
  import opened Resp
  import opened RespRoundTrip

  function Strings(chunks: seq<string>): (ts: seq<Reply>)
    ensures |ts| == |chunks| && forall i :: 0 <= i < |ts| ==> ts[i] == Str(chunks[i])
  {
    seq(|chunks|, i requires 0 <= i < |chunks| => Str(chunks[i]))
  }

  /** The wire form of a request: an array of its chunks as bulk strings. */
  function Encoded(chunks: seq<string>): string {
    Print(Aggregate(false, Strings(chunks)))
  }

  lemma {:induction false} PrintAllAppend(a: seq<Reply>, b: seq<Reply>)
    ensures PrintAll(a + b) == PrintAll(a) + PrintAll(b)
  {
    if a == [] {
      assert a + b == b;
    } else {
      assert (a + b)[0] == a[0] && (a + b)[1..] == a[1..] + b;
      PrintAllAppend(a[1..], b);
    }
  }

  /** One chunk on the wire. */
  function Piece(chunk: string): string { Header('$', |chunk|) + chunk + CRLF }

  /** The encoding up to and without chunk i. */
  function Prefix(chunks: seq<string>, i: nat): string
    requires i <= |chunks|
  {
    Header('*', |chunks|) + PrintAll(Strings(chunks[..i]))
  }

  lemma PrefixNext(chunks: seq<string>, i: nat)
    requires i < |chunks|
    ensures Prefix(chunks, i + 1) == Prefix(chunks, i) + Piece(chunks[i])
  {
    hide Text;
    var t := Str(chunks[i]);
    assert Strings(chunks[..i + 1]) == Strings(chunks[..i]) + [t];
    PrintAllAppend(Strings(chunks[..i]), [t]);
    assert PrintAll([t]) == Print(t) + PrintAll([]);
  }

  lemma PrefixFits(chunks: seq<string>, i: nat)
    requires i <= |chunks|
    ensures |Prefix(chunks, i)| <= |Encoded(chunks)|
    ensures i == 0 ==> Prefix(chunks, i) == Header('*', |chunks|)
    ensures i == |chunks| ==> Prefix(chunks, i) == Encoded(chunks)
  {
    hide Text;
    assert Strings(chunks) == Strings(chunks[..i]) + Strings(chunks[i..]);
    PrintAllAppend(Strings(chunks[..i]), Strings(chunks[i..]));
    assert i == |chunks| ==> chunks[..i] == chunks;
  }

  /** memcpy(buff + pos, src, |src|). */
  method Copy(buff: array<char>, pos: nat, src: string) returns (end: nat)
    requires pos + |src| <= buff.Length
    modifies buff
    ensures end == pos + |src|
    ensures buff[..end] == old(buff[..pos]) + src
  {
    forall i | 0 <= i < |src| {
      buff[pos + i] := src[i];
    }
    end := pos + |src|;
  }

  method EncodedLength(chunks: seq<string>) returns (length: nat)
    ensures length == |Encoded(chunks)|
  {
    hide Text, Prefix, Encoded;
    var chunkBytes := 0;
    PrefixFits(chunks, 0);
    for i := 0 to |chunks|
      invariant chunkBytes + |Header('*', |chunks|)| == |Prefix(chunks, i)|
    {
      PrefixNext(chunks, i);
      chunkBytes := chunkBytes + |chunks[i]| + |Text(|chunks[i]|)|;
      chunkBytes := chunkBytes + 1 + 2 + 2;
    }
    PrefixFits(chunks, |chunks|);
    length := chunkBytes + |Text(|chunks|)| + 3;
  }

  method WriteChunk(buff: array<char>, pos: nat, chunk: string) returns (end: nat)
    requires pos + |Piece(chunk)| <= buff.Length
    modifies buff
    ensures end <= buff.Length && buff[..end] == old(buff[..pos]) + Piece(chunk)
  {
    hide Text;
    end := Copy(buff, pos, "$");
    end := Copy(buff, end, Text(|chunk|));
    end := Copy(buff, end, CRLF);
    end := Copy(buff, end, chunk);
    end := Copy(buff, end, CRLF);
  }

  method WriteHeader(buff: array<char>, n: nat) returns (end: nat)
    requires |Header('*', n)| <= buff.Length
    modifies buff
    ensures end <= buff.Length && buff[..end] == Header('*', n)
  {
    hide Text;
    buff[0] := '*';
    end := Copy(buff, 1, Text(n));
    end := Copy(buff, end, CRLF);
  }

  /** initFromChunks: size the buffer first, then fill it from left to right, to the last byte. */
  method InitFromChunks(chunks: seq<string>) returns (buff: array<char>)
    ensures fresh(buff) && buff[..] == Encoded(chunks)
  {
    hide Piece, Prefix, Encoded, Header;
    var length := EncodedLength(chunks);
    buff := new char[length];
    PrefixFits(chunks, 0);
    var pos := WriteHeader(buff, |chunks|);
    for i := 0 to |chunks|
      invariant 0 <= pos <= length
      invariant buff[..pos] == Prefix(chunks, i)
    {
      PrefixNext(chunks, i);
      PrefixFits(chunks, i + 1);
      pos := WriteChunk(buff, pos, chunks[i]);
    }
    PrefixFits(chunks, |chunks|);
    assert buff[..pos] == buff[..];
  }

  /** fuseIntoBlock: the encodings one after the other. */
  method FuseIntoBlock(block: seq<array<char>>) returns (buff: array<char>)
    ensures fresh(buff) && buff[..] == Flatten(Contents(block))
  {
    var fusedSize := 0;
    for i := 0 to |block|
      invariant fusedSize == |Flatten(Contents(block[..i]))|
    {
      FlattenNext(Contents(block), i);
      assert Contents(block[..i + 1]) == Contents(block)[..i + 1];
      assert Contents(block[..i]) == Contents(block)[..i];
      fusedSize := fusedSize + block[i].Length;
    }
    assert block[..|block|] == block;
    buff := new char[fusedSize];
    var pos := 0;
    ghost var all := Contents(block);
    for i := 0 to |block|
      invariant 0 <= pos <= fusedSize == |Flatten(all)| == buff.Length
      invariant all == Contents(block)
      invariant buff[..pos] == Flatten(all[..i])
    {
      FlattenNext(all, i);
      assert all == all[..i + 1] + all[i + 1..];
      FlattenAppend(all[..i + 1], all[i + 1..]);
      pos := Copy(buff, pos, block[i][..]);
    }
    assert all[..|all|] == all && buff[..pos] == buff[..];
  }

  ghost function Contents(block: seq<array<char>>): (c: seq<string>)
    reads block
    ensures |c| == |block| && forall i :: 0 <= i < |c| ==> c[i] == block[i][..]
  {
    seq(|block|, i requires 0 <= i < |block| reads block => block[i][..])
  }

  lemma FlattenNext(pieces: seq<string>, i: nat)
    requires i < |pieces|
    ensures Flatten(pieces[..i + 1]) == Flatten(pieces[..i]) + pieces[i]
  {
    assert pieces[..i + 1] == pieces[..i] + [pieces[i]];
    FlattenAppend(pieces[..i], [pieces[i]]);
    assert Flatten([pieces[i]]) == pieces[i] + Flatten(([pieces[i]])[1..]);
  }

  function BlockBytes(pieces: seq<string>): string {
    Encoded(["MULTI"]) + Flatten(pieces) + Encoded(["EXEC"])
  }

  /** fuseIntoBlockAndSurround: MULTI in front, EXEC behind. */
  method FuseIntoBlockAndSurround(block: seq<array<char>>) returns (buff: array<char>)
    ensures fresh(buff)
    ensures buff[..] == BlockBytes(old(Contents(block)))
  {
    var first := InitFromChunks(["MULTI"]);
    var last := InitFromChunks(["EXEC"]);
    ghost var middle := Contents(block);
    buff := FuseIntoBlock([first] + block + [last]);
    assert Contents([first] + block + [last]) == [first[..]] + middle + [last[..]];
    FlattenAppend([first[..]] + middle, [last[..]]);
    FlattenAppend([first[..]], middle);
    FlattenOne(first[..]);
    FlattenOne(last[..]);
  }

  lemma FlattenOne(piece: string)
    ensures Flatten([piece]) == piece
  {
    assert Flatten([piece]) == piece + Flatten([piece][1..]);
  }

  function EncodedAll(requests: seq<seq<string>>): (c: seq<string>)
    ensures |c| == |requests| && forall i :: 0 <= i < |c| ==> c[i] == Encoded(requests[i])
  {
    seq(|requests|, i requires 0 <= i < |requests| => Encoded(requests[i]))
  }

  function RequestTrees(requests: seq<seq<string>>): (ts: seq<Reply>)
    ensures |ts| == |requests| && forall i :: 0 <= i < |ts| ==> ts[i] == Aggregate(false, Strings(requests[i]))
  {
    seq(|requests|, i requires 0 <= i < |requests| => Aggregate(false, Strings(requests[i])))
  }

  predicate RequestFits(chunks: seq<string>) {
    |chunks| <= MAX_ELEMENTS && forall i :: 0 <= i < |chunks| ==> |chunks[i]| <= INT64_MAX
  }

  lemma {:induction false} EncodedIsPrinted(requests: seq<seq<string>>)
    ensures Flatten(EncodedAll(requests)) == PrintAll(RequestTrees(requests))
  {
    if requests != [] {
      EncodedIsPrinted(requests[1..]);
      assert EncodedAll(requests)[1..] == EncodedAll(requests[1..]);
      assert RequestTrees(requests)[1..] == RequestTrees(requests[1..]);
    }
  }

  /** A MULTI block of n requests is read back as exactly n + 2 requests: MULTI, the n in order,
      EXEC. That is where the n + 2 replies of a block come from. */
  lemma MultiBlockIsReadBack(requests: seq<seq<string>>)
    requires forall i :: 0 <= i < |requests| ==> RequestFits(requests[i])
    ensures
      var all := [["MULTI"]] + requests + [["EXEC"]];
      Run([], None, BlockBytes(EncodedAll(requests))) == (RequestTrees(all), INITIAL) && |RequestTrees(all)| == |requests| + 2
  {
    hide Print, Run, PrintAll;
    var all := [["MULTI"]] + requests + [["EXEC"]];
    assert EncodedAll(all) == [Encoded(["MULTI"])] + EncodedAll(requests) + [Encoded(["EXEC"])];
    FlattenAppend([Encoded(["MULTI"])] + EncodedAll(requests), [Encoded(["EXEC"])]);
    FlattenAppend([Encoded(["MULTI"])], EncodedAll(requests));
    FlattenOne(Encoded(["MULTI"]));
    FlattenOne(Encoded(["EXEC"]));
    EncodedIsPrinted(all);
    forall i | 0 <= i < |all| ensures Printable(RequestTrees(all)[i]) {
      RequestIsPrintable(all[i]);
    }
    PrintedTreesParse(RequestTrees(all));
  }

  lemma RequestIsPrintable(chunks: seq<string>)
    requires RequestFits(chunks)
    ensures Printable(Aggregate(false, Strings(chunks)))
  {
    HeightAllBound(Strings(chunks), 0);
  }

  // ---- Formatting ----

  /** The C++ values the formatter is instantiated with. A map is listed in its iteration order. */
  datatype Data =
    | Chars(text: string)
    | Number(value: int)
    | Vector(items: seq<Data>)
    | Mapping(entries: seq<Entry>)

  datatype Entry = Entry(key: Data, value: Data)

  /** The reply tree a value stands for: a map is an array of keys and values in turn. */
  function Shape(d: Data): Reply
    decreases d, 0
  {
    match d
    case Chars(s) => Str(s)
    case Number(n) => Integer(n)
    case Vector(items) => Aggregate(false, Shapes(items))
    case Mapping(entries) => Aggregate(false, EntryShapes(entries))
  }

  function Shapes(items: seq<Data>): (ts: seq<Reply>)
    ensures |ts| == |items|
    decreases items, 0
  {
    if items == [] then [] else [Shape(items[0])] + Shapes(items[1..])
  }

  function EntryShape(e: Entry): (ts: seq<Reply>)
    ensures |ts| == 2
    decreases e, 0
  {
    match e
    case Entry(k, v) => [Shape(k), Shape(v)]
  }

  function EntryShapes(entries: seq<Entry>): (ts: seq<Reply>)
    ensures |ts| == 2 * |entries|
    decreases entries, 0
  {
    if entries == [] then [] else EntryShape(entries[0]) + EntryShapes(entries[1..])
  }

  lemma {:induction false} ShapesSplit(a: seq<Data>, b: seq<Data>)
    ensures Shapes(a + b) == Shapes(a) + Shapes(b)
  {
    hide Shape;
    if a == [] {
      assert a + b == b;
    } else {
      assert (a + b)[1..] == a[1..] + b;
      ShapesSplit(a[1..], b);
    }
  }

  lemma PrintAllOne(t: Reply)
    ensures PrintAll([t]) == Print(t)
  {
    hide Print;
    assert [t][1..] == [] && PrintAll([]) == "";
    assert Print(t) + "" == Print(t);
  }

  lemma ShapesNext(items: seq<Data>, i: nat)
    requires i < |items|
    ensures PrintAll(Shapes(items[..i + 1])) == PrintAll(Shapes(items[..i])) + Print(Shape(items[i]))
  {
    hide Shape, Print, PrintAll;
    var x := items[i];
    ShapesSplit(items[..i], [x]);
    assert items[..i + 1] == items[..i] + [x];
    assert Shapes([x]) == [Shape(x)] + Shapes([x][1..]) == [Shape(x)];
    PrintAllAppend(Shapes(items[..i]), [Shape(x)]);
    PrintAllOne(Shape(x));
  }

  lemma EntryShapesNext(entries: seq<Entry>, i: nat)
    requires i < |entries|
    ensures PrintAll(EntryShapes(entries[..i + 1]))
      == PrintAll(EntryShapes(entries[..i])) + (Print(Shape(entries[i].key)) + Print(Shape(entries[i].value)))
  {
    hide Shape, Print, PrintAll;
    var e := entries[i];
    var pair := [Shape(e.key), Shape(e.value)];
    EntryShapesSplit(entries[..i], [e]);
    assert entries[..i + 1] == entries[..i] + [e];
    assert EntryShapes([e]) == pair + EntryShapes([e][1..]) == pair;
    PrintAllAppend(EntryShapes(entries[..i]), pair);
    PrintAllAppend([pair[0]], [pair[1]]);
    assert pair == [pair[0]] + [pair[1]];
    PrintAllOne(pair[0]);
    PrintAllOne(pair[1]);
  }

  lemma {:induction false} EntryShapesSplit(a: seq<Entry>, b: seq<Entry>)
    ensures EntryShapes(a + b) == EntryShapes(a) + EntryShapes(b)
  {
    if a == [] {
      assert a + b == b;
    } else {
      assert (a + b)[1..] == a[1..] + b;
      EntryShapesSplit(a[1..], b);
    }
  }

  /** serializeInternal: append a value to the stream. */
  method SerializeInternal(ss: string, d: Data) returns (out: string)
    ensures out == ss + Print(Shape(d))
    decreases d, 1
  {
    hide Text;
    match d
    case Chars(s) =>
      out := ss + ("$" + Text(|s|) + CRLF + s + CRLF);
    case Number(n) =>
      out := ss + (":" + Text(n) + CRLF);
    case Vector(items) =>
      out := SerializeVector(ss + ("*" + Text(|items|) + CRLF), d, items);
    case Mapping(entries) =>
      out := SerializeMap(ss + ("*" + Text(2 * |entries|) + CRLF), d, entries);
  }

  method SerializeVector(ss: string, ghost d: Data, items: seq<Data>) returns (out: string)
    requires d == Vector(items)
    ensures out == ss + PrintAll(Shapes(items))
    decreases d, 0
  {
    hide Text, Print, Shape;
    out := ss;
    for i := 0 to |items|
      invariant out == ss + PrintAll(Shapes(items[..i]))
    {
      ShapesNext(items, i);
      out := SerializeInternal(out, items[i]);
    }
    assert items[..|items|] == items;
  }

  method SerializeMap(ss: string, ghost d: Data, entries: seq<Entry>) returns (out: string)
    requires d == Mapping(entries)
    ensures out == ss + PrintAll(EntryShapes(entries))
    decreases d, 0
  {
    hide Text, Print, Shape;
    out := ss;
    for i := 0 to |entries|
      invariant out == ss + PrintAll(EntryShapes(entries[..i]))
    {
      EntryShapesNext(entries, i);
      out := SerializeInternal(out, entries[i].key);
      out := SerializeInternal(out, entries[i].value);
    }
    assert entries[..|entries|] == entries;
  }

  method Serialize(d: Data) returns (out: string)
    ensures out == Print(Shape(d))
    ensures WellFormed(Shape(d)) && Height(Shape(d)) <= 8 ==>
      Pull([], None, out) == (Some(Shape(d)), Reading([], None, ""))
  {
    out := SerializeInternal("", d);
    if WellFormed(Shape(d)) {
      RoundTrip(Shape(d), "");
      assert Print(Shape(d)) + "" == out;
    }
  }
}
