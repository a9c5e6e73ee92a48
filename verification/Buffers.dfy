/** Filling fixed-size buffers in place. */
module Buffers {
  import opened Bytes

  /** `s` with `src` copied over it at `at`. */
  function Overwrite(s: seq<byte>, at: nat, src: seq<byte>): (r: seq<byte>)
    requires at + |src| <= |s|
    ensures |r| == |s|
  {
    s[..at] + src + s[at + |src|..]
  }

  lemma OverwriteNext(s: seq<byte>, at: nat, src: seq<byte>, b: byte)
    requires at + |src| < |s|
    ensures Overwrite(s, at, src)[at + |src| := b] == Overwrite(s, at, src + [b])
  {
  }

  method CopyInto(buf: array<byte>, at: nat, src: seq<byte>)
    requires at + |src| <= buf.Length
    modifies buf
    ensures buf[..] == Overwrite(old(buf[..]), at, src)
  {
    var i := 0;
    while i < |src|
      invariant 0 <= i <= |src|
      invariant buf[..] == Overwrite(old(buf[..]), at, src[..i])
    {
      OverwriteNext(old(buf[..]), at, src[..i], src[i]);
      assert src[..i + 1] == src[..i] + [src[i]];
      buf[at + i] := src[i];
      i := i + 1;
    }
    assert src[..i] == src;
  }

  method Fill(buf: array<byte>, from: nat, to: nat, b: byte)
    requires from <= to <= buf.Length
    modifies buf
    ensures buf[..] == Overwrite(old(buf[..]), from, Repeat(b, to - from))
  {
    var i := from;
    while i < to
      invariant from <= i <= to
      invariant buf[..] == Overwrite(old(buf[..]), from, Repeat(b, i - from))
    {
      OverwriteNext(old(buf[..]), from, Repeat(b, i - from), b);
      assert Repeat(b, i + 1 - from) == Repeat(b, i - from) + [b];
      buf[i] := b;
      i := i + 1;
    }
  }

  /** Copy right behind the part that is already written. */
  method Extend(buf: array<byte>, at: nat, src: seq<byte>, ghost written: seq<byte>)
    requires at + |src| <= buf.Length && buf[..at] == written
    modifies buf
    ensures buf[..at + |src|] == written + src
  {
    CopyInto(buf, at, src);
  }
}
