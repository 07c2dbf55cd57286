/** SrCopyFrame: gathering the scattered bytes of a frame into the buffer of a TCB. */
module FrameCopy {
  type Byte = b: int | 0 <= b < 256 witness 0

  /** A memory descriptor: its bytes, if NdisQueryMdl can map them. */
  datatype Mdl = Mdl(mapped: bool, bytes: seq<Byte>)

  const ETH_HEADER_SIZE: nat := 14
  const ETH_MAX_DATA_SIZE: nat := 1500
  const NIC_BUFFER_SIZE: nat := ETH_HEADER_SIZE + ETH_MAX_DATA_SIZE
  const ETH_MIN_PACKET_SIZE: nat := 60
  const P8021_HOST_MASK: bv32 := 0xfff8
  const P8021_MAC_LEN: nat := 12
  const P8021_BYTE_LEN: nat := 4
  // P8021_TPID_TYPE, 0x0081, as it lies in memory
  const TPID: seq<Byte> := [0x81, 0]

  // A priority packet and not a VLAN packet.
  predicate Tags(priority: bv32) {
    priority != 0 && priority & P8021_HOST_MASK == 0
  }

  /** Of the values a priority field of 16 bits can have, exactly 1 to 7 get a type. */
  lemma TagsExactly(priority: bv32)
    requires priority < 0x1_0000
    ensures Tags(priority) <==> 1 <= priority <= 7
  {
  }

  /** What is written for the gathered bytes: a priority packet gets a type behind its two
      addresses, once they are complete. */
  function Tagged(tags: bool, frame: seq<Byte>): seq<Byte> {
    if tags && |frame| >= P8021_MAC_LEN then frame[..P8021_MAC_LEN] + TPID + frame[P8021_MAC_LEN..] else frame
  }

  /** What is counted for them: two bytes more than are written if a type was. */
  function Counted(tags: bool, frame: seq<Byte>): nat {
    |frame| + if tags && |frame| >= P8021_MAC_LEN then P8021_BYTE_LEN else 0
  }

  function Flat(mdls: seq<Mdl>): seq<Byte> {
    if mdls == [] then [] else Flat(mdls[..|mdls| - 1]) + mdls[|mdls| - 1].bytes
  }

  function Min(a: int, b: int): int {
    if a < b then a else b
  }

  /** The bytes of a chain from an offset on, or what exists of them. */
  function Window(all: seq<Byte>, offset: nat, len: nat): seq<Byte> {
    all[Min(offset, |all|)..Min(offset + len, |all|)]
  }

  // The walk reaches MDL k with bytes still wanted.
  predicate Reached(mdls: seq<Mdl>, k: nat, offset: nat, len: nat)
    requires k < |mdls|
  {
    len > 0 && |Flat(mdls[..k])| < offset + len
  }

  /** The walk meets an MDL it cannot map before it has all the bytes it wants. */
  ghost predicate Blocked(mdls: seq<Mdl>, offset: nat, len: nat) {
    exists k | 0 <= k < |mdls| :: !mdls[k].mapped && Reached(mdls, k, offset, len)
  }

  function Zeros(k: nat): seq<Byte> {
    seq(k, _ => 0)
  }

  lemma FlatStep(mdls: seq<Mdl>, k: nat)
    requires k < |mdls|
    ensures Flat(mdls[..k + 1]) == Flat(mdls[..k]) + mdls[k].bytes
  {
    assert mdls[..k + 1][..k] == mdls[..k];
  }

  // What one MDL adds to the window.
  lemma WindowStep(all: seq<Byte>, bytes: seq<Byte>, offset: nat, len: nat)
    ensures Window(all + bytes, offset, len) ==
              if |all| + |bytes| <= offset then []
              else if |all| <= offset then bytes[offset - |all|..Min(offset + len - |all|, |bytes|)]
              else if offset + len <= |all| then Window(all, offset, len)
              else Window(all, offset, len) + bytes[..Min(offset + len - |all|, |bytes|)]
  {
  }

  lemma {:induction false} FlatPrefix(mdls: seq<Mdl>, k: nat)
    requires k <= |mdls|
    ensures Flat(mdls[..k]) <= Flat(mdls)
    decreases |mdls| - k
  {
    if k == |mdls| {
      assert mdls[..k] == mdls;
    } else {
      FlatStep(mdls, k);
      FlatPrefix(mdls, k + 1);
    }
  }

  // The walk after k MDLs: what it wrote, and what it still skips and wants.
  ghost predicate Walked(mdls: seq<Mdl>, k: nat, dataOffset: nat, dataLength: nat, offset: nat, wanted: nat, written: seq<Byte>) {
    && k <= |mdls| && written == Window(Flat(mdls[..k]), dataOffset, dataLength)
    && offset == (if |Flat(mdls[..k])| <= dataOffset then dataOffset - |Flat(mdls[..k])| else 0)
    && wanted == dataLength - |written|
    && forall j | 0 <= j < k :: mdls[j].mapped
  }

  lemma WalkStep(mdls: seq<Mdl>, k: nat, dataOffset: nat, dataLength: nat, offset: nat, wanted: nat, written: seq<Byte>)
    requires Walked(mdls, k, dataOffset, dataLength, offset, wanted, written) && k < |mdls| && mdls[k].mapped && wanted > 0
    ensures var src := mdls[k].bytes;
            if |src| > offset then
              var cur := Min(|src| - offset, wanted);
              Walked(mdls, k + 1, dataOffset, dataLength, 0, wanted - cur, written + src[offset..offset + cur])
            else
              Walked(mdls, k + 1, dataOffset, dataLength, offset - |src|, wanted, written)
  {
    FlatStep(mdls, k);
    WindowStep(Flat(mdls[..k]), mdls[k].bytes, dataOffset, dataLength);
  }

  // A walk that stopped at an MDL it could not map.
  lemma WalkBlocked(mdls: seq<Mdl>, k: nat, dataOffset: nat, dataLength: nat, offset: nat, wanted: nat, written: seq<Byte>)
    requires Walked(mdls, k, dataOffset, dataLength, offset, wanted, written) && k < |mdls| && !mdls[k].mapped && wanted > 0
    ensures Blocked(mdls, dataOffset, dataLength)
  {
    assert Reached(mdls, k, dataOffset, dataLength);
  }

  // Bytes behind the window do not count.
  lemma WindowOfPrefix(some: seq<Byte>, all: seq<Byte>, offset: nat, len: nat)
    requires some <= all && (len == 0 || offset + len <= |some|)
    ensures Window(some, offset, len) == Window(all, offset, len)
  {
  }

  lemma NotReached(mdls: seq<Mdl>, k: nat, j: nat, offset: nat, len: nat)
    requires k <= j < |mdls| && (len == 0 || offset + len <= |Flat(mdls[..k])|)
    ensures !Reached(mdls, j, offset, len)
  {
    FlatPrefix(mdls[..j], k);
    assert mdls[..j][..k] == mdls[..k];
  }

  // A walk that has all it wants.
  lemma WalkFull(mdls: seq<Mdl>, k: nat, dataOffset: nat, dataLength: nat, offset: nat, written: seq<Byte>)
    requires Walked(mdls, k, dataOffset, dataLength, offset, 0, written)
    ensures !Blocked(mdls, dataOffset, dataLength)
    ensures written == Window(Flat(mdls), dataOffset, dataLength)
  {
    FlatPrefix(mdls, k);
    WindowOfPrefix(Flat(mdls[..k]), Flat(mdls), dataOffset, dataLength);
    forall j | k <= j < |mdls|
      ensures !Reached(mdls, j, dataOffset, dataLength)
    {
      NotReached(mdls, k, j, dataOffset, dataLength);
    }
  }

  // A walk that has all it wants or ran out of MDLs.
  lemma WalkDone(mdls: seq<Mdl>, k: nat, dataOffset: nat, dataLength: nat, offset: nat, wanted: nat, written: seq<Byte>)
    requires Walked(mdls, k, dataOffset, dataLength, offset, wanted, written) && (k == |mdls| || wanted == 0)
    ensures !Blocked(mdls, dataOffset, dataLength)
    ensures written == Window(Flat(mdls), dataOffset, dataLength)
  {
    if wanted == 0 {
      WalkFull(mdls, k, dataOffset, dataLength, offset, written);
    } else {
      assert mdls[..k] == mdls;
    }
  }

  function Overwritten(was: seq<Byte>, at: nat, src: seq<Byte>): seq<Byte>
    requires at + |src| <= |was|
  {
    was[..at] + src + was[at + |src|..]
  }

  // NdisMoveMemory.
  method Move(dest: array<Byte>, at: nat, src: seq<Byte>)
    requires at + |src| <= dest.Length
    modifies dest
    ensures dest[..] == Overwritten(old(dest[..]), at, src)
  {
    forall k | 0 <= k < |src| {
      dest[at + k] := src[k];
    }
  }

  // Two writes, the second where the first ended.
  lemma OverwrittenTwice(was: seq<Byte>, at: nat, front: seq<Byte>, back: seq<Byte>)
    requires at + |front| + |back| <= |was|
    ensures Overwritten(Overwritten(was, at, front), at + |front|, back) == Overwritten(was, at, front + back)
  {
  }

  // What one piece of the frame adds to what is written.
  function Added(tags: bool, frame: seq<Byte>, piece: seq<Byte>): seq<Byte> {
    if tags && |frame| < P8021_MAC_LEN <= |frame| + |piece| then
      var left := P8021_MAC_LEN - |frame|; piece[..left] + TPID + piece[left..]
    else piece
  }

  lemma TaggedStep(tags: bool, frame: seq<Byte>, piece: seq<Byte>)
    ensures Tagged(tags, frame + piece) == Tagged(tags, frame) + Added(tags, frame, piece)
  {
  }

  /** The local variables of SrCopyFrame: what it still skips and wants, where it writes
      next, its count, and the two counters of the tag branch. */
  datatype Locals = Locals(offset: nat, wanted: nat, pDest: nat, copied: nat, macLen: nat, priorityLen: nat)

  // The frame so far is written from the start of the buffer on.
  predicate Writing(now: seq<Byte>, was: seq<Byte>, tags: bool, v: Locals, frame: seq<Byte>) {
    && v.pDest == |Tagged(tags, frame)| <= |was| && v.copied == Counted(tags, frame)
    && (tags ==>
          if |frame| >= P8021_MAC_LEN then v.priorityLen == 0
          else v.priorityLen != 0 && v.macLen == P8021_MAC_LEN - |frame|)
    && now == Overwritten(was, 0, Tagged(tags, frame))
  }

  // The writes of a type and what is around it.
  method PutTag(dest: array<Byte>, pDest: nat, front: seq<Byte>, back: seq<Byte>)
    requires pDest + |front + TPID + back| <= dest.Length
    modifies dest
    ensures dest[..] == Overwritten(old(dest[..]), pDest, front + TPID + back)
  {
    OverwrittenTwice(dest[..], pDest, front, TPID);
    OverwrittenTwice(dest[..], pDest, front + TPID, back);
    Move(dest, pDest, front);
    Move(dest, pDest + |front|, TPID);
    Move(dest, pDest + |front| + 2, back);
  }

  // The part of the loop body that writes the bytes an MDL has for the frame.
  method Put(dest: array<Byte>, pSrc: seq<Byte>, tags: bool, v: Locals, ghost was: seq<Byte>, ghost frame: seq<Byte>)
    returns (w: Locals)
    requires Writing(dest[..], was, tags, v, frame) && |Tagged(tags, frame + pSrc)| <= |was|
    modifies dest
    ensures Writing(dest[..], was, tags, w, frame + pSrc) && w.offset == v.offset && w.wanted == v.wanted
  {
    TaggedStep(tags, frame, pSrc);
    OverwrittenTwice(was, 0, Tagged(tags, frame), Added(tags, frame, pSrc));
    w := v;
    if tags && w.priorityLen != 0 && |pSrc| >= w.macLen {
      PutTag(dest, w.pDest, pSrc[..w.macLen], pSrc[w.macLen..]);
      w := w.(pDest := w.pDest + |pSrc| + 2, copied := w.copied + |pSrc| + P8021_BYTE_LEN, macLen := 0, priorityLen := 0);
    } else {
      if tags && w.priorityLen != 0 { w := w.(macLen := w.macLen - |pSrc|); }
      Move(dest, w.pDest, pSrc);
      w := w.(pDest := w.pDest + |pSrc|, copied := w.copied + |pSrc|);
    }
  }

  // The frame so far is no longer than the whole.
  lemma FrameFits(mdls: seq<Mdl>, k: nat, offset: nat, len: nat, tags: bool)
    requires k <= |mdls|
    ensures |Tagged(tags, Window(Flat(mdls[..k]), offset, len))| <= |Tagged(tags, Window(Flat(mdls), offset, len))|
  {
    FlatPrefix(mdls, k);
  }

  /** The bytes SrCopyFrame writes: the frame with its type, zero-padded to the minimum frame
      size of IEEE 802.3 (section 3.2.8) as far as its count goes. */
  function Written(tags: bool, frame: seq<Byte>): seq<Byte> {
    var count := Counted(tags, frame);
    Tagged(tags, frame) + if 0 < count < ETH_MIN_PACKET_SIZE then Zeros(ETH_MIN_PACKET_SIZE - count) else []
  }

  /** The count SrCopyFrame returns: 0 when it needs an MDL that cannot be mapped. */
  ghost function Count(mdls: seq<Mdl>, offset: nat, len: nat, tags: bool): nat {
    var count := Counted(tags, Window(Flat(mdls), offset, len));
    if Blocked(mdls, offset, len) then 0 else if 0 < count < ETH_MIN_PACKET_SIZE then ETH_MIN_PACKET_SIZE else count
  }

  // The bytes an MDL has for the frame.
  function Piece(src: seq<Byte>, v: Locals): seq<Byte> {
    if |src| > v.offset then src[v.offset..v.offset + Min(|src| - v.offset, v.wanted)] else []
  }

  // The walk over one more MDL, mapped.
  lemma PieceStep(mdls: seq<Mdl>, k: nat, dataOffset: nat, dataLength: nat, v: Locals, frame: seq<Byte>)
    requires Walked(mdls, k, dataOffset, dataLength, v.offset, v.wanted, frame)
    requires k < |mdls| && mdls[k].mapped && v.wanted > 0
    ensures var src := mdls[k].bytes;
            var piece := Piece(src, v);
            && |piece| <= v.wanted
            && Walked(mdls, k + 1, dataOffset, dataLength, if |src| > v.offset then 0 else v.offset - |src|, v.wanted - |piece|, frame + piece)
  {
    WalkStep(mdls, k, dataOffset, dataLength, v.offset, v.wanted, frame);
    if |mdls[k].bytes| <= v.offset { assert frame + [] == frame; }
  }

  // The loop body for a mapped MDL.
  method CopyMdl(dest: array<Byte>, src: seq<Byte>, tags: bool, v: Locals, ghost was: seq<Byte>, ghost frame: seq<Byte>)
    returns (w: Locals, ghost longer: seq<Byte>)
    requires Writing(dest[..], was, tags, v, frame) && |Tagged(tags, frame + Piece(src, v))| <= |was|
    modifies dest
    ensures longer == frame + Piece(src, v) && Writing(dest[..], was, tags, w, longer)
    ensures w.offset == (if |src| > v.offset then 0 else v.offset - |src|) && w.wanted == v.wanted - |Piece(src, v)|
  {
    var curLen := |src|;
    if curLen > v.offset {
      curLen := curLen - v.offset;
      if curLen > v.wanted {
        curLen := v.wanted;
      }
      w := Put(dest, src[v.offset..v.offset + curLen], tags, v, was, frame);
      longer := frame + src[v.offset..v.offset + curLen];
      w := w.(offset := 0, wanted := v.wanted - curLen);
    } else {
      w := v.(offset := v.offset - curLen);
      longer := frame;
    }
  }

  // The buffer after the walk over the MDLs.
  ghost predicate Gathered(now: seq<Byte>, was: seq<Byte>, mdls: seq<Mdl>, offset: nat, len: nat, tags: bool, v: Locals, frame: seq<Byte>) {
    var whole := Window(Flat(mdls), offset, len);
    if Blocked(mdls, offset, len) then
      |Tagged(tags, frame)| <= |Tagged(tags, whole)| <= |was| && v.copied == 0 && now == Overwritten(was, 0, Tagged(tags, frame))
    else
      frame == whole && Writing(now, was, tags, v, frame)
  }

  // The walk of SrCopyFrame over the MDLs.
  method Gather(dest: array<Byte>, mdls: seq<Mdl>, dataOffset: nat, dataLength: nat, tags: bool)
    returns (v: Locals, ghost frame: seq<Byte>)
    requires |Tagged(tags, Window(Flat(mdls), dataOffset, dataLength))| <= dest.Length
    modifies dest
    ensures Gathered(dest[..], old(dest[..]), mdls, dataOffset, dataLength, tags, v, frame)
  {
    frame, v := [], Locals(dataOffset, dataLength, 0, 0, P8021_MAC_LEN, P8021_BYTE_LEN);
    var i := 0;
    while i < |mdls| && v.wanted > 0
      invariant Walked(mdls, i, dataOffset, dataLength, v.offset, v.wanted, frame)
      invariant Writing(dest[..], old(dest[..]), tags, v, frame)
      decreases |mdls| - i
    {
      if !mdls[i].mapped {
        WalkBlocked(mdls, i, dataOffset, dataLength, v.offset, v.wanted, frame);
        FrameFits(mdls, i, dataOffset, dataLength, tags);
        v := v.(copied := 0);
        return;
      }
      PieceStep(mdls, i, dataOffset, dataLength, v, frame);
      FrameFits(mdls, i + 1, dataOffset, dataLength, tags);
      v, frame := CopyMdl(dest, mdls[i].bytes, tags, v, old(dest[..]), frame);
      i := i + 1;
    }
    WalkDone(mdls, i, dataOffset, dataLength, v.offset, v.wanted, frame);
  }

  /** The buffer and the count SrCopyFrame returns: the gathered bytes from the start of the
      buffer on, with a type behind the addresses of a priority packet, and zero-padded.
      Nothing behind them is touched. */
  ghost predicate Copied(now: seq<Byte>, was: seq<Byte>, mdls: seq<Mdl>, offset: nat, len: nat, tags: bool, copied: nat) {
    var frame := Window(Flat(mdls), offset, len);
    && copied == Count(mdls, offset, len, tags)
    && if Blocked(mdls, offset, len) then
         |Tagged(tags, frame)| <= |was| == |now| && now[|Tagged(tags, frame)|..] == was[|Tagged(tags, frame)|..]
       else
         |Written(tags, frame)| <= |was| && now == Overwritten(was, 0, Written(tags, frame))
  }

  lemma BlockedIsCopied(now: seq<Byte>, was: seq<Byte>, mdls: seq<Mdl>, offset: nat, len: nat, tags: bool, v: Locals, frame: seq<Byte>)
    requires Gathered(now, was, mdls, offset, len, tags, v, frame) && Blocked(mdls, offset, len)
    ensures Copied(now, was, mdls, offset, len, tags, v.copied)
  {
  }

  lemma UnpaddedIsCopied(now: seq<Byte>, was: seq<Byte>, mdls: seq<Mdl>, offset: nat, len: nat, tags: bool, v: Locals, frame: seq<Byte>)
    requires Gathered(now, was, mdls, offset, len, tags, v, frame) && !Blocked(mdls, offset, len)
    requires v.copied == 0 || v.copied >= ETH_MIN_PACKET_SIZE
    ensures Copied(now, was, mdls, offset, len, tags, v.copied)
  {
    assert Tagged(tags, frame) + [] == Tagged(tags, frame);
  }

  // The zeroing of the tail.
  method Pad(dest: array<Byte>, tags: bool, v: Locals, ghost was: seq<Byte>, ghost frame: seq<Byte>)
    requires Writing(dest[..], was, tags, v, frame) && 0 < v.copied < ETH_MIN_PACKET_SIZE <= |was|
    modifies dest
    ensures dest[..] == Overwritten(was, 0, Written(tags, frame))
  {
    var zeros := Zeros(ETH_MIN_PACKET_SIZE - v.copied);
    OverwrittenTwice(was, 0, Tagged(tags, frame), zeros);
    Move(dest, v.pDest, zeros);
  }

  /** A frame without a type: its own bytes, and zeros up to 60. */
  ghost predicate Plain(now: seq<Byte>, frame: seq<Byte>, copied: nat) {
    && copied == (if frame == [] then 0 else if |frame| < 60 then 60 else |frame|)
    && |frame| <= copied <= |now| && now[..|frame|] == frame
    && forall i | |frame| <= i < copied :: now[i] == 0
  }

  /** A frame with a type: twelve bytes of addresses, 0x81 and 0, the rest of the frame, and
      zeros up to two bytes before 60. */
  ghost predicate WithType(now: seq<Byte>, frame: seq<Byte>, copied: nat) {
    && copied == (if |frame| + 4 < 60 then 60 else |frame| + 4)
    && 14 <= |frame| + 2 <= copied - 2 <= |now|
    && now[..12] == frame[..12] && now[12] == 0x81 && now[13] == 0 && now[14..|frame| + 2] == frame[12..]
    && forall i | |frame| + 2 <= i < copied - 2 :: now[i] == 0
  }

  lemma CopiedIsPlain(now: seq<Byte>, was: seq<Byte>, mdls: seq<Mdl>, offset: nat, len: nat, tags: bool, copied: nat)
    requires Copied(now, was, mdls, offset, len, tags, copied) && !Blocked(mdls, offset, len)
    requires !tags || |Window(Flat(mdls), offset, len)| < 12
    ensures Plain(now, Window(Flat(mdls), offset, len), copied)
  {
    var frame := Window(Flat(mdls), offset, len);
    assert Tagged(tags, frame) == frame;
  }

  lemma CopiedIsWithType(now: seq<Byte>, was: seq<Byte>, mdls: seq<Mdl>, offset: nat, len: nat, copied: nat)
    requires Copied(now, was, mdls, offset, len, true, copied) && !Blocked(mdls, offset, len)
    requires |Window(Flat(mdls), offset, len)| >= 12
    ensures WithType(now, Window(Flat(mdls), offset, len), copied)
  {
    var frame := Window(Flat(mdls), offset, len);
    var tagged := Tagged(true, frame);
    assert now[..|tagged|] == tagged;
    assert tagged[..12] == frame[..12] && tagged[12] == 0x81 && tagged[13] == 0 && tagged[14..] == frame[12..];
  }

  // The body of SrCopyFrame.
  method CopyInto(dest: array<Byte>, mdls: seq<Mdl>, dataOffset: nat, dataLength: nat, priority: bv32) returns (copied: nat)
    requires dest.Length == NIC_BUFFER_SIZE
    requires |Tagged(Tags(priority), Window(Flat(mdls), dataOffset, dataLength))| <= NIC_BUFFER_SIZE
    modifies dest
    ensures Copied(dest[..], old(dest[..]), mdls, dataOffset, dataLength, Tags(priority), copied)
  {
    var tags := Tags(priority);
    var v;
    ghost var frame;
    v, frame := Gather(dest, mdls, dataOffset, dataLength, tags);
    copied := v.copied;
    if copied != 0 && copied < ETH_MIN_PACKET_SIZE {
      Pad(dest, tags, v, old(dest[..]), frame);
      copied := ETH_MIN_PACKET_SIZE;
    } else if Blocked(mdls, dataOffset, dataLength) {
      BlockedIsCopied(dest[..], old(dest[..]), mdls, dataOffset, dataLength, tags, v, frame);
    } else {
      UnpaddedIsCopied(dest[..], old(dest[..]), mdls, dataOffset, dataLength, tags, v, frame);
    }
  }

  /** SrCopyFrame for a frame that fits the buffer. */
  method CopyFrame(dest: array<Byte>, mdls: seq<Mdl>, dataOffset: nat, dataLength: nat, priority: bv32) returns (copied: nat)
    requires dest.Length == NIC_BUFFER_SIZE
    requires |Tagged(Tags(priority), Window(Flat(mdls), dataOffset, dataLength))| <= NIC_BUFFER_SIZE
    modifies dest
    ensures Copied(dest[..], old(dest[..]), mdls, dataOffset, dataLength, Tags(priority), copied)
    ensures var frame := Window(Flat(mdls), dataOffset, dataLength);
            !Blocked(mdls, dataOffset, dataLength) && priority < 0x1_0000 ==>
              if 1 <= priority <= 7 && |frame| >= 12 then WithType(dest[..], frame, copied) else Plain(dest[..], frame, copied)
  {
    copied := CopyInto(dest, mdls, dataOffset, dataLength, priority);
    if !Blocked(mdls, dataOffset, dataLength) && priority < 0x1_0000 {
      TagsExactly(priority);
      if 1 <= priority <= 7 && |Window(Flat(mdls), dataOffset, dataLength)| >= 12 {
        CopiedIsWithType(dest[..], old(dest[..]), mdls, dataOffset, dataLength, copied);
      } else {
        CopiedIsPlain(dest[..], old(dest[..]), mdls, dataOffset, dataLength, Tags(priority), copied);
      }
    }
  }

  /** The count reads as NDIS_STATUS_SUCCESS, which is 0, exactly when an MDL the copy needs
      cannot be mapped or there is nothing to copy; any other count is at least 60, and makes
      SrProcessNBL give up. */
  lemma CountIsSuccessExactly(mdls: seq<Mdl>, offset: nat, len: nat, tags: bool)
    ensures Count(mdls, offset, len, tags) == 0 <==> Blocked(mdls, offset, len) || len == 0 || |Flat(mdls)| <= offset
    ensures Count(mdls, offset, len, tags) != 0 ==> Count(mdls, offset, len, tags) >= 60
  {
  }

  /** A frame of two bytes of which only the first could be copied reads as a success. */
  lemma HalfCopiedIsSuccess(a: Byte, b: Byte)
    ensures var mdls := [Mdl(true, [a]), Mdl(false, [b])];
            Window(Flat(mdls), 0, 2) == [a, b] && Count(mdls, 0, 2, false) == 0
  {
    var mdls := [Mdl(true, [a]), Mdl(false, [b])];
    FlatStep(mdls, 0);
    FlatStep(mdls, 1);
    assert mdls[..2] == mdls;
    assert Reached(mdls, 1, 0, 2);
  }

  /** The count is the number of bytes written, unless a type was inserted: then it is two
      more, and the last two bytes it covers are left over from before. */
  lemma CountIsBytesWritten(mdls: seq<Mdl>, offset: nat, len: nat, tags: bool)
    requires !Blocked(mdls, offset, len)
    ensures var frame := Window(Flat(mdls), offset, len);
            && Count(mdls, offset, len, tags) == |Written(tags, frame)| + (if tags && |frame| >= P8021_MAC_LEN then 2 else 0)
  {
  }
}
