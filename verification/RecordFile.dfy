/** Record files: length-prefixed chunks over a file of compressed blocks. */
module RecordFile {
  import opened Collections

  type Byte = b: int | 0 <= b < 256
  type Bytes = seq<Byte>

  const BLOCK_SIZE: nat := 512000
  const INT_MAX: nat := 0x7fff_ffff

  /** The block compressor, and what is demanded of it. */
  datatype Codec = Codec(compress: Bytes -> Bytes, decompress: Bytes -> Bytes) {
    ghost predicate Lawful() {
      forall b: Bytes :: BlockOk(b) ==> PackedOk(compress(b)) && decompress(compress(b)) == b
    }
  }

  ghost predicate BlockOk(b: Bytes) { 0 < |b| <= BLOCK_SIZE }

  ghost predicate PackedOk(b: Bytes) { 0 < |b| <= INT_MAX }

  // ---------------------------------------------------------------- the layout

  /** An int in memory order. */
  function IntBytes(n: nat): (r: Bytes)
    requires n <= INT_MAX
    ensures |r| == 4
  {
    var n1 := n / 256;
    var n2 := n1 / 256;
    [n % 256, n1 % 256, n2 % 256, n2 / 256]
  }

  function BytesInt(b: Bytes): nat
    requires |b| == 4
  {
    (b[0] as int) + 256 * ((b[1] as int) + 256 * ((b[2] as int) + 256 * (b[3] as int)))
  }

  lemma IntRoundTrip(n: nat)
    requires n <= INT_MAX
    ensures BytesInt(IntBytes(n)) == n
  {
  }

  ghost predicate BlocksOk(blocks: seq<Bytes>) { forall i :: 0 <= i < |blocks| ==> BlockOk(blocks[i]) }

  function Concat(parts: seq<Bytes>): Bytes { if parts == [] then [] else parts[0] + Concat(parts[1..]) }

  /** A block on disk: the compressed size and the compressed bytes. */
  function Packed(codec: Codec, b: Bytes): Bytes
    requires codec.Lawful() && BlockOk(b)
  {
    IntBytes(|codec.compress(b)|) + codec.compress(b)
  }

  function FileOf(codec: Codec, blocks: seq<Bytes>): Bytes
    requires codec.Lawful() && BlocksOk(blocks)
  {
    if blocks == [] then [] else Packed(codec, blocks[0]) + FileOf(codec, blocks[1..])
  }

  ghost predicate ChunksOk(chunks: seq<Bytes>) { forall i :: 0 <= i < |chunks| ==> |chunks[i]| <= INT_MAX }

  /** Chunks one after the other, each behind its length. */
  function Records(chunks: seq<Bytes>): Bytes
    requires ChunksOk(chunks)
  {
    if chunks == [] then [] else IntBytes(|chunks[0]|) + chunks[0] + Records(chunks[1..])
  }

  lemma {:induction false} ConcatPush(parts: seq<Bytes>, b: Bytes)
    ensures Concat(parts + [b]) == Concat(parts) + b
  {
    if parts != [] {
      assert (parts + [b])[1..] == parts[1..] + [b];
      ConcatPush(parts[1..], b);
    }
  }

  lemma {:induction false} FilePush(codec: Codec, blocks: seq<Bytes>, b: Bytes)
    requires codec.Lawful() && BlocksOk(blocks) && BlockOk(b)
    ensures BlocksOk(blocks + [b]) && FileOf(codec, blocks + [b]) == FileOf(codec, blocks) + Packed(codec, b)
  {
    hide Codec.Lawful, Packed;
    if blocks == [] {
      assert [b][1..] == [];
      assert FileOf(codec, [b]) == Packed(codec, b);
    } else {
      assert (blocks + [b])[1..] == blocks[1..] + [b];
      FilePush(codec, blocks[1..], b);
    }
  }

  lemma {:induction false} RecordsPush(chunks: seq<Bytes>, c: Bytes)
    requires ChunksOk(chunks) && |c| <= INT_MAX
    ensures ChunksOk(chunks + [c]) && Records(chunks + [c]) == Records(chunks) + IntBytes(|c|) + c
  {
    hide IntBytes;
    if chunks == [] {
      assert [c][1..] == [];
    } else {
      assert (chunks + [c])[1..] == chunks[1..] + [c];
      RecordsPush(chunks[1..], c);
    }
  }

  /** The first block of a file: its size, and where its bytes and the rest are. */
  lemma {:induction false} FirstBlock(codec: Codec, blocks: seq<Bytes>)
    requires codec.Lawful() && BlocksOk(blocks) && blocks != []
    ensures var f, z := FileOf(codec, blocks), |codec.compress(blocks[0])|;
            && 0 < z && 4 + z <= |f| && BytesInt(f[..4]) == z
            && codec.decompress(f[4..4 + z]) == blocks[0]
            && f[4 + z..] == FileOf(codec, blocks[1..])
  {
    var packed := codec.compress(blocks[0]);
    var z, f := |packed|, FileOf(codec, blocks);
    assert PackedOk(packed);
    IntRoundTrip(z);
    assert f[..4] == IntBytes(z);
    assert f[4..4 + z] == packed;
    assert f[4 + z..] == FileOf(codec, blocks[1..]);
  }

  lemma {:induction false} NoBlock(codec: Codec, blocks: seq<Bytes>, f: Bytes)
    requires codec.Lawful() && BlocksOk(blocks) && f == FileOf(codec, blocks) && |f| < 4
    ensures blocks == []
  {
    if blocks != [] {
      FirstBlock(codec, blocks);
    }
  }

  /** The next block, from the read position on. */
  lemma {:induction false} NextBlock(codec: Codec, blocks: seq<Bytes>, file: Bytes, at: nat)
    requires codec.Lawful() && BlocksOk(blocks) && at + 4 <= |file| && file[at..] == FileOf(codec, blocks)
    ensures blocks != [] && BlockOk(blocks[0]) && BlocksOk(blocks[1..])
    ensures var z := BytesInt(file[at..at + 4]);
            && at + 4 + z <= |file| && codec.decompress(file[at + 4..at + 4 + z]) == blocks[0]
            && file[at + 4 + z..] == FileOf(codec, blocks[1..])
    ensures Concat(blocks) == blocks[0] + Concat(blocks[1..])
  {
    FirstBlock(codec, blocks);
    var f, z := file[at..], |codec.compress(blocks[0])|;
    assert f[..4] == file[at..at + 4];
    assert f[4..4 + z] == file[at + 4..at + 4 + z];
    assert f[4 + z..] == file[at + 4 + z..];
  }

  // ---------------------------------------------------------------- LZOFile

  class LzoFile {
    const codec: Codec
    /** The underlying file, and how far it has been read. */
    var file: Bytes
    var at: nat
    const raw: array<Byte>
    var len: nat
    var pos: nat

    /** The blocks written so far, or those not read yet. */
    ghost var blocks: seq<Bytes>

    ghost predicate Shaped()
      reads this
    {
      codec.Lawful() && BlocksOk(blocks) && raw.Length == BLOCK_SIZE && len <= BLOCK_SIZE
    }

    ghost predicate Writing()
      reads this
    {
      Shaped() && file == FileOf(codec, blocks)
    }

    ghost predicate Reading()
      reads this
    {
      Shaped() && pos <= len && at <= |file| && file[at..] == FileOf(codec, blocks)
    }

    /** Everything written. */
    ghost function Written(): Bytes
      requires Shaped()
      reads this, raw
    {
      Concat(blocks) + raw[..len]
    }

    /** Everything not read yet. */
    ghost function Unread(): Bytes
      requires Reading()
      reads this, raw
    {
      raw[pos..len] + Concat(blocks)
    }

    /** init in write mode */
    constructor Create(codec: Codec)
      requires codec.Lawful()
      ensures Writing() && fresh(raw) && Written() == [] && this.codec == codec
    {
      this.codec := codec;
      file, at := [], 0;
      raw := new Byte[BLOCK_SIZE](_ => 0);
      len, pos := 0, 0;
      blocks := [];
    }

    /** init in read mode loads the first block. */
    constructor Open(codec: Codec, file: Bytes, ghost blocks: seq<Bytes>)
      requires codec.Lawful() && BlocksOk(blocks) && file == FileOf(codec, blocks)
      ensures Reading() && fresh(raw) && Unread() == Concat(blocks) && this.codec == codec
    {
      this.codec := codec;
      this.file, at := file, 0;
      raw := new Byte[BLOCK_SIZE](_ => 0);
      len, pos := 0, 0;
      this.blocks := blocks;
      new;
      assert file[0..] == file;
      var _ := ReadBlock();
    }

    /** write_block: an empty block is not written. */
    method WriteBlock()
      requires Writing()
      modifies this
      ensures Writing() && Written() == old(Written()) && len == 0
      ensures blocks == if old(len) == 0 then old(blocks) else old(blocks) + [old(raw[..len])]
    {
      if len == 0 {
        return;
      }
      ghost var b := raw[..len];
      assert BlockOk(b);
      FilePush(codec, blocks, b);
      ConcatPush(blocks, b);
      var comp := codec.compress(raw[..len]);
      assert PackedOk(comp);
      file := file + IntBytes(|comp|);
      file := file + comp;
      blocks := blocks + [b];
      len := 0;
    }

    /** read_block: the next block, or false and an empty one at the end of the file. */
    method ReadBlock() returns (ok: bool)
      requires Reading() && pos == len
      modifies this, raw
      ensures Reading() && Unread() == old(Unread()) && pos == 0
      ensures ok <==> old(blocks) != []
      ensures if ok then len > 0 && blocks == old(blocks)[1..] else len == 0 && blocks == []
    {
      hide Codec.Lawful, FileOf, Concat, BytesInt;
      if |file| - at < 4 {
        NoBlock(codec, blocks, file[at..]);
        len, pos := 0, 0;
        return false;
      }
      NextBlock(codec, blocks, file, at);
      var compSize := BytesInt(file[at..at + 4]);
      at := at + 4;
      var comp := file[at..at + compSize];
      at := at + compSize;
      var b := codec.decompress(comp);
      ghost var rest := blocks[1..];
      assert raw[pos..len] == [] && [] + Concat(blocks) == Concat(blocks);
      Load(b);
      blocks := rest;
      return true;
    }

    /** The decompressed bytes go to the front of the block buffer. */
    method Load(b: Bytes)
      requires raw.Length == BLOCK_SIZE && BlockOk(b)
      modifies this`len, this`pos, raw
      ensures len == |b| && pos == 0 && raw[pos..len] == b
    {
      forall i | 0 <= i < |b| {
        raw[i] := b[i];
      }
      len, pos := |b|, 0;
    }

    /** write: bytes are copied into the block, which is written out exactly when it cannot take
        them all. Nothing is lost, no block is left empty or overfull, and the data is cut only into
        full blocks. */
    method Write(data: Bytes)
      requires Writing()
      modifies this, raw
      ensures Writing() && Written() == old(Written()) + data
      ensures old(len) + |data| <= BLOCK_SIZE ==> blocks == old(blocks)
      ensures old(len) + |data| > BLOCK_SIZE && |data| <= BLOCK_SIZE ==> len == |data|
      ensures old(blocks) <= blocks
      ensures forall i :: |old(blocks)| + (if old(len) > 0 then 1 else 0) <= i < |blocks| ==>
                |blocks[i]| == BLOCK_SIZE
    {
      hide Codec.Lawful, FileOf, Concat;
      ghost var was := Written();
      var done, first := 0, true;
      assert data[..0] == [];
      while first || done < |data|
        invariant Writing() && done <= |data| && Written() == was + data[..done]
        invariant first ==> done == 0 && blocks == old(blocks) && len == old(len)
        invariant !first && done < |data| ==> len == BLOCK_SIZE && |data| > BLOCK_SIZE - old(len)
        invariant !first && |data| <= BLOCK_SIZE ==> done == |data|
        invariant old(len) + |data| <= BLOCK_SIZE ==> blocks == old(blocks)
        invariant !first && old(len) + |data| > BLOCK_SIZE && |data| <= BLOCK_SIZE ==> len == |data|
        invariant old(blocks) <= blocks
        invariant forall i :: |old(blocks)| + (if old(len) > 0 then 1 else 0) <= i < |blocks| ==>
                    |blocks[i]| == BLOCK_SIZE
        decreases |data| - done, first
      {
        first := false;
        var left := |data| - done;
        if len + left > BLOCK_SIZE {
          WriteBlock();
        }
        var n := if BLOCK_SIZE - len < left then BLOCK_SIZE - len else left;
        CopyIn(data[done..done + n]);
        assert data[..done + n] == data[..done] + data[done..done + n];
        done := done + n;
      }
      assert data[..done] == data;
    }

    /** memcpy(block.raw + block.len, data, bytes_to_write) */
    method CopyIn(part: Bytes)
      requires Writing() && len + |part| <= BLOCK_SIZE
      modifies this`len, raw
      ensures Writing() && Written() == old(Written()) + part && len == old(len) + |part|
    {
      hide Codec.Lawful, FileOf, Concat;
      ghost var was := raw[..len];
      forall i | 0 <= i < |part| {
        raw[len + i] := part[i];
      }
      len := len + |part|;
      assert raw[..len] == was + part;
    }

    /** read: bytes out of the block, which is replaced when used up. Too few bytes, or none
        at the end of the file, count as 0. */
    method Read(n: nat) returns (count: nat, data: Bytes)
      requires Reading()
      modifies this, raw
      ensures Reading()
      ensures n <= |old(Unread())| ==> data == old(Unread())[..n] && Unread() == old(Unread())[n..]
      ensures n > |old(Unread())| ==> data == old(Unread()) && Unread() == []
      ensures count == if n > |old(Unread())| || old(Unread()) == [] then 0 else n
    {
      hide Codec.Lawful, FileOf, Concat;
      ghost var was := Unread();
      data := [];
      var first := true;
      while first || |data| < n
        invariant Reading() && data + Unread() == was && |data| <= n
        invariant if first then data == [] else was != []
        decreases n - |data|, first
      {
        first := false;
        if pos == len {
          var ok := ReadBlock();
          if !ok {
            NoneLeft();
            assert Unread() == [] && data + [] == data;
            return 0, data;
          }
        }
        var left := n - |data|;
        var k := if left < len - pos then left else len - pos;
        ghost var u := Unread();
        var part := CopyOut(k);
        Regroup(data, part, Unread());
        data := data + part;
      }
      Cut(was, data, Unread());
      return n, data;
    }

    /** memcpy(data, block.raw + block.pos, bytes_to_read) */
    method CopyOut(k: nat) returns (part: Bytes)
      requires Reading() && pos + k <= len
      modifies this`pos
      ensures Reading() && |part| == k && part + Unread() == old(Unread()) && pos == old(pos) + k
    {
      hide Codec.Lawful, FileOf, Concat;
      Skip(raw[pos..len], Concat(blocks), k);
      CutSlice(raw[..], pos, len, k);
      part := raw[pos..pos + k];
      pos := pos + k;
    }
  }

  lemma NoneLeft()
    ensures Concat([]) == []
  {
  }

  lemma Cut(s: Bytes, a: Bytes, b: Bytes)
    requires s == a + b
    ensures s[..|a|] == a && s[|a|..] == b
  {
  }

  lemma CutSlice(s: Bytes, i: nat, j: nat, k: nat)
    requires i + k <= j <= |s|
    ensures s[i..j][..k] == s[i..i + k] && s[i..j][k..] == s[i + k..j]
  {
  }

  lemma Skip(a: Bytes, b: Bytes, k: nat)
    requires k <= |a|
    ensures a + b == a[..k] + (a[k..] + b)
  {
  }

  // ---------------------------------------------------------------- RecordFile

  /** writeChunk */
  method WriteChunk(fp: LzoFile, data: Bytes)
    requires fp.Writing() && |data| <= INT_MAX
    modifies fp, fp.raw
    ensures fp.Writing() && fp.Written() == old(fp.Written()) + IntBytes(|data|) + data
  {
    fp.Write(IntBytes(|data|));
    fp.Write(data);
  }

  /** readChunk: a length and that many bytes, or false when there is no length. */
  method ReadChunk(fp: LzoFile, ghost chunks: seq<Bytes>) returns (ok: bool, s: Bytes)
    requires fp.Reading() && ChunksOk(chunks) && fp.Unread() == Records(chunks)
    modifies fp, fp.raw
    ensures fp.Reading() && (ok <==> chunks != [])
    ensures ok ==> s == chunks[0] && fp.Unread() == Records(chunks[1..])
    ensures !ok ==> fp.Unread() == []
  {
    ghost var u := fp.Unread();
    var bytesRead, header := fp.Read(4);
    if bytesRead < 4 {
      return false, [];
    }
    FirstRecord(chunks);
    var len := BytesInt(header);
    var _, body := fp.Read(len);
    return true, body;
  }

  lemma {:induction false} FirstRecord(chunks: seq<Bytes>)
    requires ChunksOk(chunks) && chunks != []
    ensures var r, n := Records(chunks), |chunks[0]|;
            && 4 + n <= |r| && BytesInt(r[..4]) == n
            && r[4..][..n] == chunks[0] && r[4..][n..] == Records(chunks[1..])
  {
    var r, n := Records(chunks), |chunks[0]|;
    IntRoundTrip(n);
    assert r[..4] == IntBytes(n);
    assert r[4..] == chunks[0] + Records(chunks[1..]);
  }

  /** The file consists of non-empty blocks of at most BLOCK_SIZE bytes that hold the records
      of the chunks. */
  ghost predicate Encodes(codec: Codec, file: Bytes, chunks: seq<Bytes>)
    requires codec.Lawful() && ChunksOk(chunks)
  {
    exists blocks :: BlocksOk(blocks) && file == FileOf(codec, blocks) && Concat(blocks) == Records(chunks)
  }

  /** A file written chunk by chunk and closed. */
  method WriteFile(codec: Codec, chunks: seq<Bytes>) returns (file: Bytes)
    requires codec.Lawful() && ChunksOk(chunks)
    ensures Encodes(codec, file, chunks)
  {
    hide Codec.Lawful, FileOf, Concat, Records, IntBytes;
    var fp := new LzoFile.Create(codec);
    NoRecords();
    assert chunks[..0] == [];
    for i := 0 to |chunks|
      invariant fp.Writing() && fresh(fp) && fresh(fp.raw) && fp.codec == codec
      invariant fp.Written() == Records(chunks[..i])
    {
      RecordsPush(chunks[..i], chunks[i]);
      assert chunks[..i + 1] == chunks[..i] + [chunks[i]];
      WriteChunk(fp, chunks[i]);
    }
    assert chunks[..|chunks|] == chunks;
    fp.WriteBlock();
    assert fp.Written() == Concat(fp.blocks);
    return fp.file;
  }

  lemma NoRecords()
    ensures Records([]) == []
  {
  }

  /** Reading until there is no next chunk. */
  method ReadFile(codec: Codec, file: Bytes, ghost chunks: seq<Bytes>) returns (back: seq<Bytes>)
    requires codec.Lawful() && ChunksOk(chunks) && Encodes(codec, file, chunks)
    ensures back == chunks
  {
    hide Codec.Lawful, FileOf, Concat, Records, IntBytes, LzoFile.Reading, LzoFile.Unread;
    ghost var blocks :| BlocksOk(blocks) && file == FileOf(codec, blocks) && Concat(blocks) == Records(chunks);
    var fp := new LzoFile.Open(codec, file, blocks);
    back := [];
    ghost var todo := chunks;
    var ok, s := ReadChunk(fp, todo);
    while ok
      invariant fp.Reading() && fresh(fp) && fresh(fp.raw)
      invariant ChunksOk(todo) && back + todo == chunks && (ok <==> todo != [])
      invariant ok ==> s == todo[0] && fp.Unread() == Records(todo[1..])
      decreases |todo|
    {
      back := back + [s];
      todo := todo[1..];
      ok, s := ReadChunk(fp, todo);
    }
  }

  /** Every sequence of chunks, empty ones and ones longer than a block included, comes back. */
  method RoundTrip(codec: Codec, chunks: seq<Bytes>) returns (back: seq<Bytes>)
    requires codec.Lawful() && ChunksOk(chunks)
    ensures back == chunks
  {
    hide Codec.Lawful, Encodes;
    var file := WriteFile(codec, chunks);
    back := ReadFile(codec, file, chunks);
  }
}
