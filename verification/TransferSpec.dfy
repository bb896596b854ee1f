/** The data of the file transfer over signals: signal values, the receiver's record of the
    file, and what the two handlers make of one signal (signals/receiver.c, signals/sender.c). */
module TransferSpec {
  newtype byte = x: int | 0 <= x < 256

  type Pid = nat
  type Uid = nat

  /** union sigval: the sender stores an int for the size and eight bytes for the data. */
  datatype SigVal = SivalInt(i: int) | SivalPtr(bytes: seq<byte>)

  /** si_code: sigqueue sends SI_QUEUE, kill sends SI_USER. */
  datatype Code = Queued | User

  datatype Info = Info(code: Code, pid: Pid, uid: Uid, value: SigVal)

  const WORD := 8    // sizeof(void*)
  const TWO31 := 0x8000_0000
  const TWO32 := 0x1_0000_0000
  const TWO63 := 0x8000_0000_0000_0000
  const TWO64 := 0x1_0000_0000_0000_0000

  /** A size_t stored in the int member of the union keeps its low 32 bits, as a signed number. */
  function ToInt(n: nat): int {
    if n % TWO32 < TWO31 then n % TWO32 else n % TWO32 - TWO32
  }

  /** An int assigned to a size_t. */
  function ToSizeT(i: int): nat
    requires -TWO31 <= i < TWO31
  {
    if i < 0 then i + TWO64 else i
  }

  /** The handshake carries the size exactly when it is below 2^31. */
  lemma SizeSurvives(n: nat)
    requires n < TWO64
    ensures ToSizeT(ToInt(n)) == n <==> n < TWO31 || n >= TWO64 - TWO31
  {
  }

  // --- Receiver ---

  /** struct Received_file: buffer is the mapped destination file. */
  datatype RcvFile = RcvFile(senderPid: Pid, senderUid: Uid, size: nat, index: nat, buffer: seq<byte>)

  /** truncate: cut, or pad with zero bytes. */
  function Resize(disk: seq<byte>, size: nat): (r: seq<byte>)
    ensures |r| == size
  {
    if size <= |disk| then disk[..size] else disk + seq(size - |disk|, _ => 0)
  }

  /** A file cannot have 2^63 bytes and an empty one cannot be mapped. */
  predicate CanResize(size: nat) {
    0 < size < TWO63
  }

  /** memcpy(buf + at, bytes, |bytes|) */
  function Overwrite(buf: seq<byte>, at: nat, bytes: seq<byte>): (r: seq<byte>)
    requires at + |bytes| <= |buf|
    ensures |r| == |buf|
    ensures r[..at] == buf[..at] && r[at..at + |bytes|] == bytes && r[at + |bytes|..] == buf[at + |bytes|..]
  {
    buf[..at] + bytes + buf[at + |bytes|..]
  }

  /** The int and the pointer member overlay the same eight bytes; each signal number is only
      ever sent with one of them, and the other reading is left as zero. */
  function IntOf(v: SigVal): int {
    if v.SivalInt? && -TWO31 <= v.i < TWO31 then v.i else 0
  }

  function BytesOf(v: SigVal): (b: seq<byte>)
    ensures |b| == WORD
  {
    if v.SivalPtr? && |v.bytes| == WORD then v.bytes else seq(WORD, _ => 0)
  }

  /** handler_USR1 accepts the first queued size and no other. */
  predicate Accepts(f: RcvFile, info: Info) {
    f.senderPid == 0 && f.senderUid == 0 && info.code == Queued
  }

  function AfterUsr1(f: RcvFile, info: Info): RcvFile {
    if !Accepts(f, info) then f
    else
      var size := ToSizeT(IntOf(info.value));
      RcvFile(info.pid, info.uid, size, f.index, if CanResize(size) then Resize(f.buffer, size) else f.buffer)
  }

  predicate FromSender(f: RcvFile, info: Info) {
    info.pid == f.senderPid && info.uid == f.senderUid && info.code == Queued
  }

  /** handler_USR2 stores eight bytes, or the tail when fewer are missing. */
  function AfterUsr2(f: RcvFile, info: Info): RcvFile
    requires f.index <= f.size == |f.buffer|
  {
    if !FromSender(f, info) then f
    else if f.index + 7 < f.size then
      f.(buffer := Overwrite(f.buffer, f.index, BytesOf(info.value)), index := f.index + WORD)
    else
      f.(buffer := Overwrite(f.buffer, f.index, BytesOf(info.value)[..f.size - f.index]), index := f.size)
  }

  // --- Sender ---

  /** The value of the data signal sent at index: eight bytes, or the last 0 to 7 padded with zeros. */
  function Chunk(src: seq<byte>, index: nat): (c: seq<byte>)
    requires index <= |src|
    ensures |c| == WORD
  {
    if index + 7 < |src| then src[index..index + WORD] else src[index..] + seq(WORD - (|src| - index), _ => 0)
  }

  /** One round: if the destination agrees with the source below index, then after the handler has
      stored the sender's chunk it agrees below the new index. */
  lemma RoundExtendsPrefix(f: RcvFile, info: Info, src: seq<byte>)
    requires f.index <= f.size == |f.buffer| == |src| && f.buffer[..f.index] == src[..f.index]
    requires FromSender(f, info) && info.value == SivalPtr(Chunk(src, f.index))
    ensures var f' := AfterUsr2(f, info);
            && f'.index <= f'.size == |f'.buffer| && f'.size == f.size
            && f'.index == (if f.index + 7 < f.size then f.index + WORD else f.size)
            && f'.buffer[..f'.index] == src[..f'.index]
  {
    var f' := AfterUsr2(f, info);
    assert f'.buffer[..f'.index] == f.buffer[..f.index] + src[f.index..f'.index];
  }
}
