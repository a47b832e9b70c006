/** The byte reversal of dma_user/simple_dma_module.c and the user program that drives it. */
module DmaUser {
  import opened Prelude

  type Byte = bv8

  /** Four pages of 4096 bytes on both sides. */
  const BUFFER_SIZE: nat := 16384
  const START_TRANSFER: nat := 0x7301
  const EFAULT: int := 14
  const ENOTTY: int := 25

  lemma ReversedTwice(s: seq<Byte>)
    ensures Reversed(Reversed(s)) == s
  {
  }

  lemma {:induction false} ReversedSameBytes(s: seq<Byte>)
    ensures multiset(Reversed(s)) == multiset(s)
    decreases |s|
  {
    if s != [] {
      var init, last := s[..|s| - 1], s[|s| - 1];
      ReversedSameBytes(init);
      assert s == init + [last];
      assert Reversed(s) == [last] + Reversed(init);
    }
  }

  /** The two-index loop. */
  method ReverseInPlace(buf: array<Byte>)
    modifies buf
    ensures buf[..] == Reversed(old(buf[..]))
    ensures multiset(buf[..]) == multiset(old(buf[..]))
  {
    var i, j := 0, buf.Length - 1;
    while i < j
      invariant 0 <= i && i + j == buf.Length - 1 && i <= j + 2
      invariant forall k :: 0 <= k < i || j < k < buf.Length ==> buf[k] == old(buf[buf.Length - 1 - k])
      invariant forall k :: i <= k <= j ==> buf[k] == old(buf[k])
    {
      var temp := buf[i];
      buf[i] := buf[j];
      buf[j] := temp;
      i, j := i + 1, j - 1;
    }
    assert buf[..] == Reversed(old(buf[..]));
    ReversedSameBytes(old(buf[..]));
  }

  /** simple_dma_ioctl: an unknown command or a missing buffer changes nothing. */
  method Ioctl(cmd: nat, buffer: array?<Byte>) returns (r: int)
    modifies buffer
    ensures r == if cmd != 0x7301 then -25 else if buffer == null then -14 else 0
    ensures buffer != null ==>
              buffer[..] == if cmd == 0x7301 then Reversed(old(buffer[..])) else old(buffer[..])
  {
    if cmd == START_TRANSFER {
      if buffer != null {
        ReverseInPlace(buffer);
        return 0;
      } else {
        return -EFAULT;
      }
    }
    return -ENOTTY;
  }

  function Iterate<T>(f: T -> T, x: T, n: nat): T {
    if n == 0 then x else f(Iterate(f, x, n - 1))
  }

  lemma {:induction false} InvolutionParity<T(!new)>(f: T -> T, x: T, n: nat)
    requires forall y :: f(f(y)) == y
    ensures Iterate(f, x, n) == if n % 2 == 0 then x else f(x)
  {
    if n > 0 {
      InvolutionParity(f, x, n - 1);
    }
  }

  /** n transfers leave the buffer original or reversed by the parity of n. */
  lemma {:induction false} TransfersByParity(s: seq<Byte>, n: nat)
    ensures Iterate(Reversed<Byte>, s, n) == if n % 2 == 0 then s else Reversed(s)
  {
    forall t: seq<Byte>
      ensures Reversed(Reversed(t)) == t
    {
      ReversedTwice(t);
    }
    InvolutionParity(Reversed<Byte>, s, n);
  }

  /** Any number of transfer commands on one buffer. */
  method IoctlTimes(buffer: array<Byte>, n: nat)
    modifies buffer
    ensures buffer[..] == if n % 2 == 0 then old(buffer[..]) else Reversed(old(buffer[..]))
  {
    var k := 0;
    while k < n
      invariant 0 <= k <= n
      invariant buffer[..] == Iterate(Reversed<Byte>, old(buffer[..]), k)
    {
      var r := Ioctl(START_TRANSFER, buffer);
      k := k + 1;
    }
    TransfersByParity(old(buffer[..]), n);
  }

  /** The C string at the start of a buffer. */
  function CString(buf: seq<Byte>): seq<Byte> {
    if buf == [] || buf[0] == 0 then [] else [buf[0]] + CString(buf[1..])
  }

  /** A C string has no NUL in its text. */
  ghost predicate IsText(text: seq<Byte>) {
    forall i :: 0 <= i < |text| ==> text[i] != 0
  }

  lemma {:induction false} CStringOfTerminated(text: seq<Byte>, rest: seq<Byte>)
    requires IsText(text)
    ensures CString(text + [0] + rest) == text
    decreases |text|
  {
    if text == [] {
      assert (text + [0] + rest)[0] == 0;
    } else {
      assert (text + [0] + rest)[1..] == text[1..] + [0] + rest;
      CStringOfTerminated(text[1..], rest);
    }
  }

  /** A cleared buffer of `size` bytes with the text and its terminator copied to the front. */
  function Filled(text: seq<Byte>, size: nat): (buf: seq<Byte>)
    requires |text| < size
    ensures |buf| == size
    ensures forall i :: 0 <= i < size ==> buf[i] == if i < |text| then text[i] else 0
  {
    text + seq(size - |text|, _ => 0)
  }

  /** Before the transfer the program reads its text. After it, whatever the text and the size, the
      first byte is the old last one, which is NUL, so it reads the empty string; the reversed text
      that its comment expects comes back exactly for an empty text. */
  lemma ReadBack(text: seq<Byte>, size: nat)
    requires IsText(text) && |text| < size
    ensures CString(Filled(text, size)) == text
    ensures CString(Reversed(Filled(text, size))) == []
    ensures CString(Reversed(Filled(text, size))) == Reversed(text) <==> text == []
  {
    var buf := Filled(text, size);
    CStringOfTerminated(text, buf[|text| + 1..]);
    assert buf == text + [0] + buf[|text| + 1..];
    assert Reversed(buf)[0] == 0;
  }

  /** The user program on a mapped buffer: refuse a message that does not fit, otherwise clear,
      copy with its terminator, read back, transfer, read back. */
  method WriteTransferRead(buffer: array<Byte>, text: seq<Byte>)
    returns (ok: bool, wrote: seq<Byte>, read: seq<Byte>)
    requires buffer.Length == 16384 && IsText(text)
    modifies buffer
    ensures ok <==> |text| + 1 <= 16384
    ensures !ok ==> buffer[..] == old(buffer[..])
    ensures ok ==> wrote == text && read == []
    ensures ok ==> buffer[..] == Reversed(Filled(text, 16384))
    ensures ok ==> forall i :: 0 <= i < |text| ==> buffer[16384 - 1 - i] == text[i]
  {
    wrote, read := [], [];
    ok := |text| + 1 <= buffer.Length;
    if !ok {
      return;
    }
    forall i | 0 <= i < buffer.Length {
      buffer[i] := 0;
    }
    forall i | 0 <= i < |text| {
      buffer[i] := text[i];
    }
    buffer[|text|] := 0;
    assert buffer[..] == Filled(text, BUFFER_SIZE);
    ReadBack(text, BUFFER_SIZE);
    wrote := CString(buffer[..]);
    var r := Ioctl(START_TRANSFER, buffer);
    read := CString(buffer[..]);
  }
}
