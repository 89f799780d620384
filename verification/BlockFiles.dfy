/**
 The node's Exporter and Importer: a file of blocks, each after its length in four bytes, and the loop that skips
 what the node already has and appends the rest. Block encoding and acceptance by the node are parameters.
 */
module BlockFiles {
  import opened Wrappers

  newtype Byte = x: int | 0 <= x < 256

  const INT_RANGE := 0x1_0000_0000
  const INT_MAX := 0x7FFF_FFFF

  /** 32-bit two's complement. */
  function Wrapped(n: int): int {
    var m := n % INT_RANGE;
    if m > INT_MAX then m - INT_RANGE else m
  }

  lemma WrappedSmall(n: int)
    requires -INT_MAX <= n <= INT_MAX
    ensures Wrapped(n) == n
  {
  }

  // ----- Ints.toByteArray and Ints.fromByteArray, high byte first -----

  function ToByteArray(n: int): (b: seq<Byte>)
    ensures |b| == 4
  {
    var m := n % INT_RANGE;
    [(m / 16777216) as Byte, (m / 65536 % 256) as Byte, (m / 256 % 256) as Byte, (m % 256) as Byte]
  }

  function FromByteArray(b: seq<Byte>): int
    requires |b| == 4
  {
    Wrapped(((b[0] as int * 256 + b[1] as int) * 256 + b[2] as int) * 256 + b[3] as int)
  }

  lemma BytesOfInt(n: int)
    ensures FromByteArray(ToByteArray(n)) == Wrapped(n)
  {
    var m := n % INT_RANGE;
    Digits256(m);
    var b := ToByteArray(n);
    assert ((b[0] as int * 256 + b[1] as int) * 256 + b[2] as int) * 256 + b[3] as int == m;
  }

  lemma Digits256(m: int)
    requires 0 <= m < INT_RANGE
    ensures ((m / 16777216 * 256 + m / 65536 % 256) * 256 + m / 256 % 256) * 256 + m % 256 == m
  {
    assert m / 65536 / 256 == m / 16777216 && m / 256 / 256 == m / 65536;
  }

  // ----- blocks and the node -----

  datatype Block = Block(id: int, reference: int)

  /** Encoding in the chosen format, and whether the node's appender takes a block. */
  datatype Codec = Codec(encode: Block -> seq<Byte>, parse: seq<Byte> -> Option<Block>, accepts: (seq<Block>, Block) -> bool)

  function Frame(c: Codec, b: Block): (f: seq<Byte>)
    ensures |f| == 4 + |c.encode(b)|
  {
    ToByteArray(|c.encode(b)|) + c.encode(b)
  }

  function Frames(c: Codec, bs: seq<Block>): seq<Byte> {
    if bs == [] then [] else Frame(c, bs[0]) + Frames(c, bs[1..])
  }

  // ----- export -----

  class OutputStream {
    var written: seq<Byte>

    constructor ()
      ensures written == []
    {
      written := [];
    }

    method Write(bytes: seq<Byte>)
      modifies this
      ensures written == old(written) + bytes
    {
      written := written + bytes;
    }
  }

  function Smaller(a: nat, b: nat): nat {
    if a <= b then a else b
  }

  function Larger(a: nat, b: nat): nat {
    if a >= b then a else b
  }

  lemma {:induction false} FramesConcat(c: Codec, a: seq<Block>, b: seq<Block>)
    ensures Frames(c, a + b) == Frames(c, a) + Frames(c, b)
    decreases a
  {
    hide Frame;
    if a == [] {
      assert a + b == b;
    } else {
      FramesConcat(c, a[1..], b);
      assert (a + b)[0] == a[0] && (a + b)[1..] == a[1..] + b;
      var f := Frame(c, a[0]);
      assert (f + Frames(c, a[1..])) + Frames(c, b) == f + (Frames(c, a[1..]) + Frames(c, b));
    }
  }

  /** The heights 2 to `height`; the progress test divides by a tenth of the height, which may be 0. */
  method Export(c: Codec, chain: seq<Block>, exportHeight: Option<nat>, stream: OutputStream)
    returns (exportedBytes: Option<nat>)
    modifies stream
    ensures var height := Smaller(|chain|, if exportHeight.Some? then exportHeight.value else |chain|);
            && (exportedBytes.None? <==> 2 <= height < 10)
            && (exportedBytes.Some? ==>
                  stream.written == old(stream.written) + Frames(c, if height == 0 then [] else chain[1..height])
                  && exportedBytes.value == |stream.written| - |old(stream.written)|)
  {
    hide Frame, ToByteArray;
    var height := Smaller(|chain|, if exportHeight.Some? then exportHeight.value else |chain|);
    ghost var before := stream.written;
    var total := 0;
    var h := 2;
    assert height > 0 ==> chain[1..1] == [];
    while h <= height
      invariant 2 <= h && (height >= 2 ==> h <= height + 1) && (h > 2 ==> height >= 10)
      invariant height >= 2 ==> stream.written == before + Frames(c, chain[1..h - 1])
      invariant height < 2 ==> stream.written == before
      invariant total == |stream.written| - |before|
    {
      var bytes := c.encode(chain[h - 1]);
      OneFrame(c, chain, h);
      stream.Write(ToByteArray(|bytes|));
      stream.Write(bytes);
      total := total + 4 + |bytes|;
      if height / 10 == 0 {
        return None;
      }
      h := h + 1;
    }
    exportedBytes := Some(total);
  }

  lemma {:induction false} OneFrame(c: Codec, chain: seq<Block>, h: nat)
    requires 2 <= h <= |chain|
    ensures forall before: seq<Byte> ::
              (before + Frames(c, chain[1..h - 1])) + ToByteArray(|c.encode(chain[h - 1])|) + c.encode(chain[h - 1])
              == before + Frames(c, chain[1..h])
  {
    hide ToByteArray;
    var b := chain[h - 1];
    assert chain[1..h] == chain[1..h - 1] + [b];
    FramesConcat(c, chain[1..h - 1], [b]);
    assert [b][1..] == [];
    assert Frames(c, [b]) == Frame(c, b) + [];
  }

  // ----- import -----

  /** What one run leaves: the chain, and whether it ended by an exception. */
  datatype Imported = Imported(chain: seq<Block>, crashed: bool)

  predicate Follows(chain: seq<Block>, b: Block) {
    chain != [] && chain[|chain| - 1].id == b.reference
  }

  function Import(c: Codec, rest: seq<Byte>, chain: seq<Block>, counter: int, skip: int, limit: int): Imported
    decreases |rest|
  {
    if counter >= limit || |rest| < 4 then Imported(chain, false)
    else
      var len := FromByteArray(rest[..4]);
      if len < 0 then Imported(chain, true)
      else if |rest| - 4 < len then Imported(chain, false)
      else
        var body, next := rest[4..4 + len], rest[4 + len..];
        if skip > 0 then Import(c, next, chain, counter, skip - 1, limit)
        else
          match c.parse(body)
          case None => Imported(chain, true)
          case Some(b) =>
            if !Follows(chain, b) then Import(c, next, chain, counter, skip, limit)
            else if c.accepts(chain, b) then Import(c, next, chain + [b], counter + 1, skip, limit)
            else Imported(chain, false)
  }

  class InputStream {
    const content: seq<Byte>
    var pos: nat

    constructor (content: seq<Byte>)
      ensures this.content == content && pos == 0
    {
      this.content, pos := content, 0;
    }

    ghost predicate Valid()
      reads this
    {
      pos <= |content|
    }

    /** Reads as much as there is, up to the length asked for; -1 at the end. */
    method Read(length: nat) returns (count: int, data: seq<Byte>)
      requires Valid()
      modifies this
      ensures Valid()
      ensures var left := |content| - old(pos);
              && (length > 0 && left == 0 ==> count == -1 && pos == old(pos))
              && (length == 0 || left > 0 ==>
                    count == Smaller(length, left) && pos == old(pos) + count && data == content[old(pos)..pos])
    {
      if length > 0 && pos == |content| {
        return -1, [];
      }
      var n := Smaller(length, |content| - pos);
      data := content[pos..pos + n];
      pos := pos + n;
      count := n;
    }
  }

  class Node {
    var chain: seq<Block>

    constructor (chain: seq<Block>)
      ensures this.chain == chain
    {
      this.chain := chain;
    }
  }

  /** The loop of `startImport`; true when it ends by an exception. */
  method StartImport(c: Codec, bis: InputStream, node: Node, importHeight: int) returns (crashed: bool)
    requires bis.pos == 0
    modifies bis, node
    ensures var start := |old(node.chain)|;
            Imported(node.chain, crashed)
              == Import(c, bis.content, old(node.chain), 0, start - 1, Wrapped(Wrapped(importHeight - start) + 1))
  {
    hide FromByteArray;
    var quit, counter := false, 0;
    var startHeight := |node.chain|;
    var blocksToSkip: int := startHeight - 1;
    var blocksToApply := Wrapped(Wrapped(importHeight - startHeight) + 1);
    ghost var all := Import(c, bis.content, node.chain, 0, startHeight - 1, blocksToApply);
    assert bis.content[0..] == bis.content;
    while !quit && counter < blocksToApply
      invariant bis.Valid()
      invariant !quit ==> Import(c, bis.content[bis.pos..], node.chain, counter, blocksToSkip, blocksToApply) == all
      invariant quit ==> Imported(node.chain, false) == all
      decreases !quit, |bis.content| - bis.pos
    {
      ghost var rest, at := bis.content[bis.pos..], bis.pos;
      var s1, lenBytes := bis.Read(4);
      if s1 == 4 {
        assert lenBytes == rest[..4];
        var len := FromByteArray(lenBytes);
        if len < 0 {
          return true;
        }
        var s2, buffer := bis.Read(len);
        if s2 == len {
          assert buffer == rest[4..4 + len] && bis.content[bis.pos..] == rest[4 + len..];
          if blocksToSkip > 0 {
            blocksToSkip := blocksToSkip - 1;
          } else {
            var block := c.parse(buffer);
            if block.None? {
              return true;
            }
            if Follows(node.chain, block.value) {
              if c.accepts(node.chain, block.value) {
                node.chain := node.chain + [block.value];
                counter := counter + 1;
              } else {
                quit := true;
              }
            }
          }
        } else {
          quit := true;
        }
      } else {
        quit := true;
      }
    }
    crashed := false;
  }

  // ----- any file -----

  /** Block number i names the one before it and was accepted on top of it. */
  predicate Linked(c: Codec, chain: seq<Block>, i: nat) {
    0 < i < |chain| && chain[i].reference == chain[i - 1].id && c.accepts(chain[..i], chain[i])
  }

  /** Whatever the file holds, the chain only grows, each new block on the one before it, and by no more than the limit. */
  lemma {:induction false} ImportExtends(c: Codec, rest: seq<Byte>, chain: seq<Block>, counter: int, skip: int, limit: int)
    ensures var r := Import(c, rest, chain, counter, skip, limit).chain;
            chain <= r && (forall i :: |chain| <= i < |r| ==> Linked(c, r, i))
            && |r| <= |chain| + (if limit > counter then limit - counter else 0)
    decreases |rest|
  {
    hide FromByteArray;
    if !(counter >= limit || |rest| < 4) {
      var len := FromByteArray(rest[..4]);
      if 0 <= len <= |rest| - 4 {
        var body, next := rest[4..4 + len], rest[4 + len..];
        if skip > 0 {
          ImportExtends(c, next, chain, counter, skip - 1, limit);
        } else if c.parse(body).Some? {
          var b := c.parse(body).value;
          if !Follows(chain, b) {
            ImportExtends(c, next, chain, counter, skip, limit);
          } else if c.accepts(chain, b) {
            ImportExtends(c, next, chain + [b], counter + 1, skip, limit);
            var r := Import(c, rest, chain, counter, skip, limit).chain;
            assert r[..|chain|] == chain && r[|chain|] == b;
          }
        }
      }
    }
  }

  // ----- an exported file, whole or cut -----

  /** A chain that the node takes block by block, in an encoding that reads back. */
  ghost predicate Appendable(c: Codec, full: seq<Block>) {
    && (forall i :: 1 <= i < |full| ==> Linked(c, full, i))
    && (forall i :: 0 <= i < |full| ==> c.parse(c.encode(full[i])) == Some(full[i]) && |c.encode(full[i])| <= INT_MAX)
  }

  /** How many frames are complete in the first n bytes. */
  function Complete(c: Codec, bs: seq<Block>, n: nat): (k: nat)
    ensures k <= |bs|
  {
    if bs == [] || n < |Frame(c, bs[0])| then 0 else 1 + Complete(c, bs[1..], n - |Frame(c, bs[0])|)
  }

  function Cut(bytes: seq<Byte>, n: nat): seq<Byte> {
    if n <= |bytes| then bytes[..n] else bytes
  }

  lemma FrameReads(c: Codec, b: Block, more: seq<Byte>)
    requires |c.encode(b)| <= INT_MAX
    ensures var rest, len := Frame(c, b) + more, |c.encode(b)|;
            FromByteArray(rest[..4]) == len && rest[4..4 + len] == c.encode(b) && rest[4 + len..] == more
  {
    hide ToByteArray, FromByteArray;
    BytesOfInt(|c.encode(b)|);
    var rest := Frame(c, b) + more;
    assert rest[..4] == ToByteArray(|c.encode(b)|);
  }

  /** A cut in the middle of a frame: the length is short, or it is whole and the body is short. */
  lemma TornFrame(c: Codec, b: Block, more: seq<Byte>, n: nat)
    requires |c.encode(b)| <= INT_MAX && n < |Frame(c, b)|
    ensures var rest := Cut(Frame(c, b) + more, n);
            |rest| == n && (n >= 4 ==> FromByteArray(rest[..4]) == |c.encode(b)| > n - 4)
  {
    hide ToByteArray, FromByteArray;
    FrameReads(c, b, more);
    var rest := Cut(Frame(c, b) + more, n);
    if n >= 4 {
      assert rest[..4] == (Frame(c, b) + more)[..4];
    }
  }

  lemma CutFrame(c: Codec, b: Block, more: seq<Byte>, n: nat)
    requires n >= |Frame(c, b)|
    ensures Cut(Frame(c, b) + more, n) == Frame(c, b) + Cut(more, n - |Frame(c, b)|)
  {
    hide Frame;
  }

  lemma {:induction false} ImportOne(c: Codec, b: Block, next: seq<Byte>, chain: seq<Block>, counter: int, skip: int, limit: int)
    requires |c.encode(b)| <= INT_MAX && c.parse(c.encode(b)) == Some(b) && counter < limit
    ensures skip > 0 ==> Import(c, Frame(c, b) + next, chain, counter, skip, limit) == Import(c, next, chain, counter, skip - 1, limit)
    ensures skip <= 0 && Follows(chain, b) && c.accepts(chain, b) ==>
              Import(c, Frame(c, b) + next, chain, counter, skip, limit) == Import(c, next, chain + [b], counter + 1, skip, limit)
  {
    FrameReads(c, b, next);
    hide Frame, FromByteArray;
  }

  lemma {:induction false} ImportTorn(c: Codec, b: Block, more: seq<Byte>, n: nat, chain: seq<Block>, counter: int, skip: int, limit: int)
    requires |c.encode(b)| <= INT_MAX && n < |Frame(c, b)|
    ensures Import(c, Cut(Frame(c, b) + more, n), chain, counter, skip, limit) == Imported(chain, false)
  {
    TornFrame(c, b, more, n);
    hide Frame, FromByteArray;
  }

  lemma {:induction false} ImportDone(c: Codec, rest: seq<Byte>, chain: seq<Block>, counter: int, skip: int, limit: int)
    requires counter >= limit || rest == []
    ensures Import(c, rest, chain, counter, skip, limit) == Imported(chain, false)
  {
  }

  /** The height reached from frame h on when k more frames are complete. */
  function Reached(s: nat, h: nat, k: nat, limit: int): nat {
    Larger(Larger(s, h), Smaller(h + k, if limit > 0 then s + limit else s))
  }

  lemma NextStep(c: Codec, full: seq<Block>, h: nat, s: nat, limit: int, next: seq<Byte>)
    requires Appendable(c, full) && 1 <= h < |full| && s <= |full| && Larger(s, h) - s < limit
    ensures Import(c, Frame(c, full[h]) + next, full[..Larger(s, h)], Larger(s, h) - s, Larger(s, h) - h, limit)
         == Import(c, next, full[..Larger(s, h + 1)], Larger(s, h + 1) - s, Larger(s, h + 1) - (h + 1), limit)
  {
    hide Frame, Import, Appendable;
    Encoded(c, full, h);
    NextChain(full, h, s);
    ImportOne(c, full[h], next, full[..Larger(s, h)], Larger(s, h) - s, Larger(s, h) - h, limit);
  }

  lemma {:induction false} FirstFrame(c: Codec, full: seq<Block>, h: nat, height: nat, n: nat)
    requires h < height <= |full|
    ensures Frames(c, full[h..height]) == Frame(c, full[h]) + Frames(c, full[h + 1..height])
    ensures Complete(c, full[h..height], n)
         == if n < |Frame(c, full[h])| then 0 else 1 + Complete(c, full[h + 1..height], n - |Frame(c, full[h])|)
  {
    hide Frame;
    assert full[h..height][0] == full[h] && full[h..height][1..] == full[h + 1..height];
  }

  /** The frames from number h on, for a node that started with s blocks. */
  lemma {:induction false} ImportFrames(c: Codec, full: seq<Block>, height: nat, h: nat, n: nat, s: nat, limit: int)
    requires 1 <= h <= height <= |full| && 1 <= s <= |full| && Appendable(c, full)
    requires h > s ==> h - s <= limit
    ensures Reached(s, h, Complete(c, full[h..height], n), limit) <= |full|
    ensures Import(c, Cut(Frames(c, full[h..height]), n), full[..Larger(s, h)], Larger(s, h) - s, Larger(s, h) - h, limit)
         == Imported(full[..Reached(s, h, Complete(c, full[h..height], n), limit)], false)
    decreases height - h
  {
    hide Frame, Import, Appendable, Cut, Frames, Complete;
    var chain, counter, skip := full[..Larger(s, h)], Larger(s, h) - s, Larger(s, h) - h;
    ghost var k := Complete(c, full[h..height], n);
    if counter >= limit {
      ImportDone(c, Cut(Frames(c, full[h..height]), n), chain, counter, skip, limit);
    } else if h == height {
      assert full[h..height] == [];
      NoFrames(c, n);
      ImportDone(c, [], chain, counter, skip, limit);
    } else {
      var more := Frames(c, full[h + 1..height]);
      FirstFrame(c, full, h, height, n);
      Encoded(c, full, h);
      if n < |Frame(c, full[h])| {
        ImportTorn(c, full[h], more, n, chain, counter, skip, limit);
      } else {
        CutFrame(c, full[h], more, n);
        NextStep(c, full, h, s, limit, Cut(more, n - |Frame(c, full[h])|));
        ImportFrames(c, full, height, h + 1, n - |Frame(c, full[h])|, s, limit);
      }
    }
  }

  lemma {:induction false} NoFrames(c: Codec, n: nat)
    ensures Cut(Frames(c, []), n) == [] && Complete(c, [], n) == 0
  {
  }

  lemma Encoded(c: Codec, full: seq<Block>, h: nat)
    requires Appendable(c, full) && 1 <= h < |full|
    ensures |c.encode(full[h])| <= INT_MAX && c.parse(c.encode(full[h])) == Some(full[h])
    ensures Follows(full[..h], full[h]) && c.accepts(full[..h], full[h])
  {
    assert Linked(c, full, h);
  }

  lemma NextChain(full: seq<Block>, h: nat, s: nat)
    requires h < |full| && s <= |full|
    ensures h < s ==> full[..Larger(s, h + 1)] == full[..Larger(s, h)]
    ensures h >= s ==> full[..Larger(s, h + 1)] == full[..h] + [full[h]] && full[..Larger(s, h)] == full[..h]
  {
  }

  /**
   A file exported up to `height` and cut after n bytes, for a node whose chain is a start of the exported one:
   the import does not fail, and leaves every block of a complete frame up to one height past the one asked for.
   */
  lemma ImportOfExport(c: Codec, full: seq<Block>, height: nat, n: nat, s: nat, importHeight: int)
    requires 1 <= height <= |full| && 1 <= s <= |full| <= INT_MAX && Appendable(c, full) && 0 < importHeight <= INT_MAX
    ensures var file := Cut(Frames(c, full[1..height]), n);
            Import(c, file, full[..s], 0, s - 1, Wrapped(Wrapped(importHeight - s) + 1))
            == Imported(full[..Larger(s, Smaller(1 + Complete(c, full[1..height], n), importHeight + 1))], false)
  {
    hide Import, Complete, Frames, Wrapped;
    WrappedSmall(importHeight - s);
    WrappedSmall(importHeight - s + 1);
    ImportFrames(c, full, height, 1, n, s, importHeight - s + 1);
  }

  lemma {:induction false} AllComplete(c: Codec, bs: seq<Block>)
    ensures Complete(c, bs, |Frames(c, bs)|) == |bs|
    decreases bs
  {
    hide Frame;
    if bs != [] {
      AllComplete(c, bs[1..]);
    }
  }

  /** With the whole file and a high enough limit the node ends with the exported chain, wherever it stopped before. */
  lemma {:induction false} ExportThenImport(c: Codec, full: seq<Block>, height: nat, s: nat, importHeight: int)
    requires 1 <= s <= height <= |full| <= INT_MAX && Appendable(c, full) && height <= importHeight <= INT_MAX
    ensures Import(c, Frames(c, full[1..height]), full[..s], 0, s - 1, Wrapped(Wrapped(importHeight - s) + 1))
         == Imported(full[..height], false)
  {
    hide Import, Frames;
    var file := Frames(c, full[1..height]);
    AllComplete(c, full[1..height]);
    ImportOfExport(c, full, height, |file|, s, importHeight);
    assert Cut(file, |file|) == file;
  }

  /** The height asked for is overshot by one block exactly when the node is not past it and the file goes further. */
  lemma {:induction false} OneTooMany(c: Codec, full: seq<Block>, height: nat, s: nat, importHeight: int)
    requires 1 <= height <= |full| <= INT_MAX && 1 <= s <= |full| && Appendable(c, full) && 0 < importHeight <= INT_MAX
    ensures var r := Import(c, Frames(c, full[1..height]), full[..s], 0, s - 1, Wrapped(Wrapped(importHeight - s) + 1)).chain;
            (s <= importHeight && |r| > importHeight <==> s <= importHeight < height)
            && (s <= importHeight ==> |r| <= importHeight + 1)
  {
    hide Import, Frames;
    var file := Frames(c, full[1..height]);
    AllComplete(c, full[1..height]);
    ImportOfExport(c, full, height, |file|, s, importHeight);
    assert Cut(file, |file|) == file;
  }
}
