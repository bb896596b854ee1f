/** The two programs' own work on their file records, in the form the programs have it. */
module TransferFiles {
  import opened TransferSpec

  method CopyBytes(dst: array<byte>, at: nat, src: seq<byte>, n: nat)
    requires n <= |src| && at + n <= dst.Length
    modifies dst
    ensures dst[..] == Overwrite(old(dst[..]), at, src[..n])
  {
    for i := 0 to n
      invariant forall j :: 0 <= j < at ==> dst[j] == old(dst[j])
      invariant forall j :: 0 <= j < i ==> dst[at + j] == src[j]
      invariant forall j :: at + i <= j < dst.Length ==> dst[j] == old(dst[j])
    {
      dst[at + i] := src[i];
    }
  }

  class ReceivedFile {
    var senderPid: Pid
    var senderUid: Uid
    var size: nat
    var index: nat
    var buffer: array<byte>

    ghost function View(): RcvFile
      reads this, buffer
    {
      RcvFile(senderPid, senderUid, size, index, buffer[..])
    }

    constructor (disk: seq<byte>)
      ensures View() == RcvFile(0, 0, 0, 0, disk) && fresh(buffer)
    {
      senderPid, senderUid, size, index := 0, 0, 0, 0;
      buffer := new byte[|disk|](i requires 0 <= i < |disk| => disk[i]);
    }

    /** ok is false when the destination could not be resized and mapped; the program then ends. */
    method HandlerUsr1(info: Info) returns (ok: bool)
      modifies this
      ensures View() == AfterUsr1(old(View()), info)
      ensures ok <==> !Accepts(old(View()), info) || CanResize(size)
      ensures buffer == old(buffer) || fresh(buffer)
    {
      if senderPid != 0 || senderUid != 0 {
        return true;
      }
      if info.code != Queued {
        return true;
      }
      senderPid := info.pid;
      senderUid := info.uid;
      size := ToSizeT(IntOf(info.value));
      ok := CanResize(size);
      if ok {
        var resized := Resize(buffer[..], size);
        buffer := new byte[size](i requires 0 <= i < |resized| => resized[i]);
        assert buffer[..] == resized;
      }
    }

    method HandlerUsr2(info: Info)
      requires index <= size == buffer.Length
      modifies this`index, buffer
      ensures View() == AfterUsr2(old(View()), info)
    {
      if senderPid != info.pid || senderUid != info.uid || info.code != Queued {
        return;
      }
      var bytes := BytesOf(info.value);
      if index + 7 < size {
        CopyBytes(buffer, index, bytes, WORD);
        assert bytes[..WORD] == bytes;
        index := index + WORD;
      } else {
        CopyBytes(buffer, index, bytes, size - index);
        index := size;
      }
    }
  }

  /** struct Sended_file and the local variables of send_data. */
  class SendedFile {
    const buffer: seq<byte>
    var index: nat

    constructor (src: seq<byte>)
      ensures buffer == src && index == 0
    {
      buffer := src;
      index := 0;
    }

    /** What send_data queues next, and whether it is the tail. */
    method NextValue() returns (value: seq<byte>, last: bool)
      requires index <= |buffer|
      modifies this`index
      ensures value == Chunk(buffer, old(index)) && (last <==> old(index) + 7 >= |buffer|)
      ensures index == if last then old(index) else old(index) + WORD
    {
      var word := new byte[WORD](_ => 0);
      last := !(index + 7 < |buffer|);
      var n := if last then |buffer| - index else WORD;
      CopyBytes(word, 0, buffer[index..], n);
      value := word[..];
      if !last {
        index := index + WORD;
      }
    }
  }
}
