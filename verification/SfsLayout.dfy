/**
 The on-disk format written by lab8/tools/mksfs.c: blocks of 4096 bytes that hold an inode, an index block,
 a directory entry, file data, the free map or the super block, integers being stored little-endian.
 */
module SfsLayout {
  import opened Common

  const BLKSIZE: nat := 4096
  const BLKBITS: nat := 32768
  const NDIRECT: nat := 12
  const NENTRY: nat := 1024
  const MAX_NBLKS: nat := 524288
  const LN_NBLKS: nat := 32768       // blocks of the largest file
  const MAGIC: nat := 0x2f8dbe2a

  const TYPE_FILE: nat := 1
  const TYPE_DIR: nat := 2
  const TYPE_LINK: nat := 3

  const BLKN_SUPER: nat := 0
  const BLKN_ROOT: nat := 1
  const BLKN_FREEMAP: nat := 2

  const MAX_FNAME: nat := 255
  const NAME_SPACE: nat := 252       // bytes of a name that reach the image

  type Bytes = seq<Byte>

  // ----- words

  /** Byte `k` of a 32-bit word. */
  function ByteOf(w: nat, k: nat): Byte {
    if k == 0 then w % 256 else if k == 1 then w / 256 % 256
    else if k == 2 then w / 65536 % 256 else w / 16777216 % 256
  }

  function WordOf(b0: Byte, b1: Byte, b2: Byte, b3: Byte): (w: nat)
    ensures w < WORD32
  {
    b0 + 256 * b1 + 65536 * b2 + 16777216 * b3
  }

  /** The word at byte offset `off`. */
  function WordAt(b: Bytes, off: nat): nat
    requires off + 4 <= |b|
  {
    WordOf(b[off], b[off + 1], b[off + 2], b[off + 3])
  }

  lemma WordOfBytes(w: nat)
    requires w < WORD32
    ensures WordOf(ByteOf(w, 0), ByteOf(w, 1), ByteOf(w, 2), ByteOf(w, 3)) == w
  {
    var q := w / 256;
    var r := q / 256;
    assert w / 65536 == r;
    assert w / 16777216 == r / 256;
  }

  function EncodeWords(ws: seq<nat>): (b: Bytes)
    ensures |b| == 4 * |ws|
    ensures forall i :: 0 <= i < |b| ==> b[i] == ByteOf(ws[i / 4], i % 4)
  {
    seq(4 * |ws|, i requires 0 <= i < 4 * |ws| => ByteOf(ws[i / 4], i % 4))
  }

  /** The least significant byte comes first. */
  lemma LittleEndian(w: nat)
    requires w < WORD32
    ensures EncodeWords([w]) == [w % 256, w / 256 % 256, w / 65536 % 256, w / 16777216 % 256]
    ensures EncodeWords([0x04030201]) == [1, 2, 3, 4]
  {
  }

  /** A block starts with the words `ws`. */
  predicate StartsWithWords(b: Bytes, ws: seq<nat>) {
    |b| >= 4 * |ws| && b[..4 * |ws|] == EncodeWords(ws)
  }

  lemma WordsReadBack(b: Bytes, ws: seq<nat>, i: nat)
    requires StartsWithWords(b, ws) && i < |ws| && ws[i] < WORD32
    ensures WordAt(b, 4 * i) == ws[i]
  {
    var e := EncodeWords(ws);
    assert forall k :: 0 <= k < |e| ==> b[k] == b[..4 * |ws|][k];
    assert b[4 * i] == ByteOf(ws[i], 0) && b[4 * i + 1] == ByteOf(ws[i], 1);
    assert b[4 * i + 2] == ByteOf(ws[i], 2) && b[4 * i + 3] == ByteOf(ws[i], 3);
    WordOfBytes(ws[i]);
  }

  // ----- blocks

  function Zeros(n: nat): (z: Bytes)
    ensures |z| == n && forall i :: 0 <= i < n ==> z[i] == 0
  {
    seq(n, i => 0)
  }

  /** write_block pads what it is given to a whole block. */
  function Padded(data: Bytes): (b: Bytes)
    requires |data| <= BLKSIZE
    ensures |b| == BLKSIZE && b[..|data|] == data && forall i :: |data| <= i < BLKSIZE ==> b[i] == 0
  {
    data + Zeros(BLKSIZE - |data|)
  }

  lemma PaddedWords(ws: seq<nat>, i: nat)
    requires 4 * |ws| <= BLKSIZE && i < |ws| && ws[i] < WORD32
    ensures WordAt(Padded(EncodeWords(ws)), 4 * i) == ws[i]
  {
    WordsReadBack(Padded(EncodeWords(ws)), ws, i);
  }

  // ----- inodes

  /** struct inode */
  datatype Inode = Inode(size: nat, kind: nat, nlinks: nat, blocks: nat,
                         direct: seq<nat>, indirect: nat, dbIndirect: nat)
  {
    /** All fields fit their C types. */
    ghost predicate Fits() {
      && size < WORD32 && kind < 65536 && nlinks < 65536 && blocks < WORD32
      && |direct| == NDIRECT && (forall k :: 0 <= k < NDIRECT ==> direct[k] < WORD32)
      && indirect < WORD32 && dbIndirect < WORD32
    }
  }

  function InodeWords(n: Inode): seq<nat> {
    [n.size, n.kind + 65536 * n.nlinks, n.blocks] + n.direct + [n.indirect, n.dbIndirect]
  }

  function EncodeInode(n: Inode): Bytes
    requires |n.direct| == NDIRECT
  {
    Padded(EncodeWords(InodeWords(n)))
  }

  function DecodeInode(b: Bytes): (n: Inode)
    requires |b| == BLKSIZE
    ensures n.Fits()
  {
    Inode(WordAt(b, 0), WordAt(b, 4) % 65536, WordAt(b, 4) / 65536, WordAt(b, 8),
          seq(NDIRECT, k requires 0 <= k < NDIRECT => WordAt(b, 12 + 4 * k)), WordAt(b, 60), WordAt(b, 64))
  }

  lemma InodeDirectReadsBack(n: Inode, k: nat)
    requires n.Fits() && k < NDIRECT
    ensures WordAt(EncodeInode(n), 12 + 4 * k) == n.direct[k]
  {
    var ws := InodeWords(n);
    assert ws[3 + k] == n.direct[k];
    PaddedWords(ws, 3 + k);
  }

  lemma InodeHeadReadsBack(n: Inode)
    requires n.Fits()
    ensures var b := EncodeInode(n);
      WordAt(b, 0) == n.size && WordAt(b, 4) == n.kind + 65536 * n.nlinks && WordAt(b, 8) == n.blocks &&
      WordAt(b, 60) == n.indirect && WordAt(b, 64) == n.dbIndirect
  {
    var ws := InodeWords(n);
    PaddedWords(ws, 0);
    PaddedWords(ws, 1);
    PaddedWords(ws, 2);
    PaddedWords(ws, 15);
    PaddedWords(ws, 16);
  }

  lemma InodeReadsBack(n: Inode)
    requires n.Fits()
    ensures DecodeInode(EncodeInode(n)) == n
  {
    InodeHeadReadsBack(n);
    var d := DecodeInode(EncodeInode(n)).direct;
    forall k | 0 <= k < NDIRECT
      ensures d[k] == n.direct[k]
    {
      InodeDirectReadsBack(n, k);
    }
    assert d == n.direct;
    HalvesOfWord(n.kind, n.nlinks);
  }

  lemma HalvesOfWord(low: nat, high: nat)
    requires low < 65536
    ensures (low + 65536 * high) % 65536 == low && (low + 65536 * high) / 65536 == high
  {
  }

  // ----- index blocks

  function EncodeIndex(ws: seq<nat>): Bytes
    requires |ws| == NENTRY
  {
    Padded(EncodeWords(ws))
  }

  function IndexEntry(b: Bytes, k: nat): nat
    requires |b| == BLKSIZE && k < NENTRY
  {
    WordAt(b, 4 * k)
  }

  // ----- directory entries

  /** The name buffer after a strcpy into it: what a longer name left behind stays behind the NUL. */
  function Strcpy(buf: Bytes, name: Bytes): (r: Bytes)
    requires |name| < |buf|
    ensures |r| == |buf|
  {
    name + [0] + buf[|name| + 1..]
  }

  /** The 256 bytes that add_entry writes: the inode number and all but the last 4 bytes of the name. */
  function EncodeEntry(ino: nat, buf: Bytes): Bytes
    requires |buf| == MAX_FNAME + 1
  {
    Padded(EncodeWords([ino]) + buf[..NAME_SPACE])
  }

  /** The C string at offset `off`, looked for up to `end`. */
  function NameAt(b: Bytes, off: nat, end: nat): Bytes
    requires off <= end <= |b|
    decreases end - off
  {
    if off == end || b[off] == 0 then [] else [b[off]] + NameAt(b, off + 1, end)
  }

  function EntryIno(b: Bytes): nat
    requires |b| == BLKSIZE
  {
    WordAt(b, 0)
  }

  /** A reader takes the name from the 256 bytes of its field. */
  function EntryName(b: Bytes): Bytes
    requires |b| == BLKSIZE
  {
    NameAt(b, 4, 260)
  }

  /** The part of a name that reaches the image. */
  function Clipped(name: Bytes): (r: Bytes)
    ensures |name| <= NAME_SPACE <==> r == name
  {
    if |name| <= NAME_SPACE then name else name[..NAME_SPACE]
  }

  lemma {:induction false} NameReadsBack(b: Bytes, off: nat, end: nat, name: Bytes)
    requires off + |name| < end <= |b| && 0 !in name
    requires b[off..off + |name|] == name && b[off + |name|] == 0
    ensures NameAt(b, off, end) == name
    decreases |name|
  {
    if name == [] {
    } else {
      assert b[off] == b[off..off + |name|][0] == name[0];
      assert name[0] in name;
      assert b[off + 1..off + |name|] == b[off..off + |name|][1..] == name[1..];
      NameReadsBack(b, off + 1, end, name[1..]);
    }
  }

  lemma EntryLayout(ino: nat, buf: Bytes, name: Bytes)
    requires |buf| == MAX_FNAME + 1 && |name| <= MAX_FNAME
    ensures var b, n := EncodeEntry(ino, Strcpy(buf, name)), Clipped(name);
      StartsWithWords(b, [ino]) && b[4..4 + |n|] == n && b[4 + |n|] == 0
  {
    var r, n := Strcpy(buf, name), Clipped(name);
    var data := EncodeWords([ino]) + r[..NAME_SPACE];
    var b := Padded(data);
    assert b[..4] == b[..|data|][..4] == EncodeWords([ino]);
    assert b[4..256] == b[..|data|][4..] == r[..NAME_SPACE];
    assert r[..|name|] == name && r[|name|] == 0;
    assert r[..|n|] == n;
    assert b[4..4 + |n|] == b[4..256][..|n|] == r[..NAME_SPACE][..|n|] == r[..|n|];
    if |name| < NAME_SPACE {
      assert b[4 + |n|] == b[4..256][|n|] == r[|n|];
    }
  }

  /** An entry reads back with its name clipped to 252 bytes; so the name survives exactly if it is no
      longer than that, although names of up to 255 bytes are accepted. */
  lemma EntryReadsBack(ino: nat, buf: Bytes, name: Bytes)
    requires |buf| == MAX_FNAME + 1 && |name| <= MAX_FNAME && ino < WORD32 && 0 !in name
    ensures var b := EncodeEntry(ino, Strcpy(buf, name));
      EntryIno(b) == ino && EntryName(b) == Clipped(name) && (EntryName(b) == name <==> |name| <= NAME_SPACE)
  {
    var b, n := EncodeEntry(ino, Strcpy(buf, name)), Clipped(name);
    EntryLayout(ino, buf, name);
    WordsReadBack(b, [ino], 0);
    NameReadsBack(b, 4, 260, n);
  }
}
