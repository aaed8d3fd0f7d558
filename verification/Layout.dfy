/** The packed structures of fat32.h as views of one 2048-byte cluster. */
module Layout {
  import opened Bytes

  type Cluster = s: seq<Byte> | |s| == 2048 witness Zeros(2048)
  const ZERO_CLUSTER: Cluster := Zeros(2048)

  type FatTable = f: seq<DWord> | |f| == 512 witness seq(512, _ => 0)
  type Name = s: seq<Byte> | |s| == 8 witness Zeros(8)
  type Ext = s: seq<Byte> | |s| == 3 witness Zeros(3)

  datatype Entry = Entry(
    name: Name, ext: Ext, attribute: Byte, userAttribute: Byte,
    undelete: Byte, createTime: Word, createDate: Word, accessDate: Word, clusterHigh: Word,
    modifiedTime: Word, modifiedDate: Word, clusterLow: Word, filesize: DWord)

  const ZERO_ENTRY := Entry(Zeros(8), Zeros(3), 0, 0, 0, 0, 0, 0, 0, 0, 0, 0, 0)

  type Table = t: seq<Entry> | |t| == 64 witness seq(64, _ => ZERO_ENTRY)

  // ---- the file allocation table: little-endian 32-bit entries ----

  function DecodeFat(c: seq<Byte>): (f: seq<DWord>)
    requires |c| % 4 == 0
    ensures |f| == |c| / 4
    decreases |c|, 1
  {
    if c == [] then [] else DecodeFatToLast(c)
  }

  function DecodeFatToLast(c: seq<Byte>): (f: seq<DWord>)
    requires |c| % 4 == 0 && c != []
    ensures |f| == |c| / 4
    decreases |c|, 0
  {
    var n := |c| - 4;
    DecodeFat(c[..n]) + [U32(c[n], c[n + 1], c[n + 2], c[n + 3])]
  }

  function EncodeFat(f: seq<DWord>): (c: seq<Byte>)
    ensures |c| == 4 * |f|
    decreases |f|, 1
  {
    if f == [] then [] else EncodeFatToLast(f)
  }

  function EncodeFatToLast(f: seq<DWord>): (c: seq<Byte>)
    requires f != []
    ensures |c| == 4 * |f|
    decreases |f|, 0
  {
    EncodeFat(f[..|f| - 1]) + Bytes4(f[|f| - 1])
  }

  lemma {:induction false} DecodeFatLast(c: seq<Byte>, b: seq<Byte>)
    requires |c| % 4 == 0 && |b| == 4
    ensures DecodeFat(c + b) == DecodeFat(c) + [U32(b[0], b[1], b[2], b[3])]
  {
    assert (c + b)[..|c|] == c;
    assert DecodeFat(c + b) == DecodeFatToLast(c + b);
  }

  lemma {:induction false} EncodeFatLast(f: seq<DWord>, v: DWord)
    ensures EncodeFat(f + [v]) == EncodeFat(f) + Bytes4(v)
  {
    assert (f + [v])[..|f|] == f;
    assert EncodeFat(f + [v]) == EncodeFatToLast(f + [v]);
  }

  lemma {:induction false} FatRoundTrip(f: seq<DWord>)
    ensures DecodeFat(EncodeFat(f)) == f
  {
    if f != [] {
      var front, v := f[..|f| - 1], f[|f| - 1];
      assert f == front + [v];
      U32RoundTrip(v);
      FatRoundTrip(front);
      EncodeFatLast(front, v);
      DecodeFatLast(EncodeFat(front), Bytes4(v));
    }
  }

  lemma {:induction false} FatBytesRoundTrip(c: seq<Byte>)
    requires |c| % 4 == 0
    ensures EncodeFat(DecodeFat(c)) == c
  {
    if c != [] {
      var front, b := c[..|c| - 4], c[|c| - 4..];
      assert c == front + b;
      BytesOfU32(b[0], b[1], b[2], b[3]);
      FatBytesRoundTrip(front);
      DecodeFatLast(front, b);
      EncodeFatLast(DecodeFat(front), U32(b[0], b[1], b[2], b[3]));
      assert Bytes4(U32(b[0], b[1], b[2], b[3])) == b;
    }
  }

  lemma {:induction false} FatEntry(c: seq<Byte>, i: nat)
    requires |c| % 4 == 0 && i < |c| / 4
    ensures DecodeFat(c)[i] == U32(c[4 * i], c[4 * i + 1], c[4 * i + 2], c[4 * i + 3])
  {
    var front, b := c[..|c| - 4], c[|c| - 4..];
    assert c == front + b;
    DecodeFatLast(front, b);
    if i < |front| / 4 {
      FatEntry(front, i);
    }
  }

  /** Storing one FAT entry changes that entry's four bytes and nothing else. */
  lemma {:induction false} FatStore(f: seq<DWord>, i: nat, v: DWord)
    requires i < |f|
    ensures EncodeFat(f[i := v]) == Patch(EncodeFat(f), 4 * i, Bytes4(v))
  {
    var front, w := f[..|f| - 1], f[|f| - 1];
    assert f == front + [w];
    EncodeFatLast(front, w);
    if i == |front| {
      assert f[i := v] == front + [v];
      EncodeFatLast(front, v);
    } else {
      assert f[i := v] == front[i := v] + [w];
      FatStore(front, i, v);
      EncodeFatLast(front[i := v], w);
      PatchInFront(EncodeFat(front), Bytes4(w), 4 * i, Bytes4(v));
    }
  }

  // ---- the directory table: entries of 32 bytes ----

  function EncodeEntry(e: Entry): (b: seq<Byte>)
    ensures |b| == 32
  {
    e.name + e.ext +
    [e.attribute, e.userAttribute, e.undelete,
     e.createTime % 0x100, e.createTime / 0x100, e.createDate % 0x100, e.createDate / 0x100,
     e.accessDate % 0x100, e.accessDate / 0x100, e.clusterHigh % 0x100, e.clusterHigh / 0x100,
     e.modifiedTime % 0x100, e.modifiedTime / 0x100, e.modifiedDate % 0x100, e.modifiedDate / 0x100,
     e.clusterLow % 0x100, e.clusterLow / 0x100,
     ByteOf(e.filesize, 0), ByteOf(e.filesize, 1), ByteOf(e.filesize, 2), ByteOf(e.filesize, 3)]
  }

  function DecodeEntry(b: seq<Byte>): Entry
    requires |b| == 32
  {
    Entry(b[0..8], b[8..11], b[11], b[12], b[13], U16(b[14], b[15]), U16(b[16], b[17]),
          U16(b[18], b[19]), U16(b[20], b[21]), U16(b[22], b[23]), U16(b[24], b[25]),
          U16(b[26], b[27]), U32(b[28], b[29], b[30], b[31]))
  }

  lemma {:induction false} EntryRoundTrip(e: Entry)
    ensures DecodeEntry(EncodeEntry(e)) == e
  {
    var b := EncodeEntry(e);
    assert b[0..8] == e.name && b[8..11] == e.ext;
    U32RoundTrip(e.filesize);
  }

  lemma {:induction false} EntryBytesRoundTrip(b: seq<Byte>)
    requires |b| == 32
    ensures EncodeEntry(DecodeEntry(b)) == b
  {
    forall i | 14 <= i < 28 && i % 2 == 0
      ensures U16(b[i], b[i + 1]) % 0x100 == b[i] && U16(b[i], b[i + 1]) / 0x100 == b[i + 1]
    {
      BytesOfU16(b[i], b[i + 1]);
    }
    BytesOfU32(b[28], b[29], b[30], b[31]);
    assert b[0..8] + b[8..11] == b[..11];
  }

  function DecodeTable(c: seq<Byte>): (t: seq<Entry>)
    requires |c| % 32 == 0
    ensures |t| == |c| / 32
    decreases |c|, 1
  {
    if c == [] then [] else DecodeTableToLast(c)
  }

  function DecodeTableToLast(c: seq<Byte>): (t: seq<Entry>)
    requires |c| % 32 == 0 && c != []
    ensures |t| == |c| / 32
    decreases |c|, 0
  {
    DecodeTable(c[..|c| - 32]) + [DecodeEntry(c[|c| - 32..])]
  }

  function EncodeTable(t: seq<Entry>): (c: seq<Byte>)
    ensures |c| == 32 * |t|
    decreases |t|, 1
  {
    if t == [] then [] else EncodeTableToLast(t)
  }

  function EncodeTableToLast(t: seq<Entry>): (c: seq<Byte>)
    requires t != []
    ensures |c| == 32 * |t|
    decreases |t|, 0
  {
    EncodeTable(t[..|t| - 1]) + EncodeEntry(t[|t| - 1])
  }

  lemma {:induction false} DecodeLast(c: seq<Byte>, b: seq<Byte>)
    requires |c| % 32 == 0 && |b| == 32
    ensures DecodeTable(c + b) == DecodeTable(c) + [DecodeEntry(b)]
  {
    assert (c + b)[..|c|] == c && (c + b)[|c|..] == b;
    assert DecodeTable(c + b) == DecodeTableToLast(c + b);
  }

  lemma {:induction false} EncodeLast(t: seq<Entry>, e: Entry)
    ensures EncodeTable(t + [e]) == EncodeTable(t) + EncodeEntry(e)
  {
    assert (t + [e])[..|t|] == t;
    assert EncodeTable(t + [e]) == EncodeTableToLast(t + [e]);
  }

  lemma {:induction false} TableRoundTrip(t: seq<Entry>)
    ensures DecodeTable(EncodeTable(t)) == t
  {
    if t != [] {
      var front, e := t[..|t| - 1], t[|t| - 1];
      assert t == front + [e];
      TableRoundTrip(front);
      EntryRoundTrip(e);
      EncodeLast(front, e);
      DecodeLast(EncodeTable(front), EncodeEntry(e));
    }
  }

  lemma {:induction false} TableBytesRoundTrip(c: seq<Byte>)
    requires |c| % 32 == 0
    ensures EncodeTable(DecodeTable(c)) == c
  {
    if c != [] {
      var front, b := c[..|c| - 32], c[|c| - 32..];
      assert c == front + b;
      TableBytesRoundTrip(front);
      EntryBytesRoundTrip(b);
      DecodeLast(front, b);
      EncodeLast(DecodeTable(front), DecodeEntry(b));
    }
  }

  lemma {:induction false} TableBytes(c: seq<Byte>, t: seq<Entry>)
    requires |c| % 32 == 0 && DecodeTable(c) == t
    ensures c == EncodeTable(t)
  {
    TableBytesRoundTrip(c);
  }

  lemma {:induction false} TableEntry(c: seq<Byte>, i: nat)
    requires |c| % 32 == 0 && i < |c| / 32
    ensures DecodeTable(c)[i] == DecodeEntry(c[32 * i..32 * i + 32])
  {
    var front, b := c[..|c| - 32], c[|c| - 32..];
    assert c == front + b;
    DecodeLast(front, b);
    if i < |front| / 32 {
      TableEntry(front, i);
      assert front[32 * i..32 * i + 32] == c[32 * i..32 * i + 32];
    } else {
      assert b == c[32 * i..32 * i + 32];
    }
  }

  /** Storing one directory entry changes that entry's 32 bytes and nothing else. */
  lemma {:induction false} EntryStore(t: seq<Entry>, i: nat, e: Entry)
    requires i < |t|
    ensures EncodeTable(t[i := e]) == Patch(EncodeTable(t), 32 * i, EncodeEntry(e))
  {
    var front, last := t[..|t| - 1], t[|t| - 1];
    assert t == front + [last];
    EncodeLast(front, last);
    if i == |front| {
      assert t[i := e] == front + [e];
      EncodeLast(front, e);
    } else {
      assert t[i := e] == front[i := e] + [last];
      EntryStore(front, i, e);
      EncodeLast(front[i := e], last);
      PatchInFront(EncodeTable(front), EncodeEntry(last), 32 * i, EncodeEntry(e));
    }
  }

  // ---- the disk image: clusters of 2048 bytes ----

  function Clusters(image: seq<Byte>): (d: seq<Cluster>)
    requires |image| % 2048 == 0
    ensures |d| == |image| / 2048
  {
    if image == [] then [] else Clusters(image[..|image| - 2048]) + [image[|image| - 2048..]]
  }

  lemma {:induction false} ClusterBytes(image: seq<Byte>, c: nat)
    requires |image| % 2048 == 0 && c < |image| / 2048
    ensures Clusters(image)[c] == image[2048 * c..2048 * c + 2048]
  {
    var n := |image| - 2048;
    if c < |image| / 2048 - 1 {
      ClusterBytes(image[..n], c);
      assert image[..n][2048 * c..2048 * c + 2048] == image[2048 * c..2048 * c + 2048];
    }
  }

  lemma {:induction false} ClustersLast(image: seq<Byte>, b: Cluster)
    requires |image| % 2048 == 0
    ensures Clusters(image + b) == Clusters(image) + [b]
  {
    assert (image + b)[..|image|] == image && (image + b)[|image|..] == b;
  }

  /** Storing one cluster changes that cluster and nothing else. */
  lemma {:induction false} ClusterStore(image: seq<Byte>, c: nat, data: Cluster)
    requires |image| % 2048 == 0 && c < |image| / 2048
    ensures Clusters(Patch(image, 2048 * c, data)) == Clusters(image)[c := data]
  {
    var front, last := image[..|image| - 2048], image[|image| - 2048..];
    assert image == front + last;
    ClustersLast(front, last);
    if c == |front| / 2048 {
      assert Patch(image, 2048 * c, data) == front + data;
      ClustersLast(front, data);
    } else {
      ClusterStore(front, c, data);
      PatchInFront(front, last, 2048 * c, data);
      ClustersLast(Patch(front, 2048 * c, data), last);
    }
  }
}
