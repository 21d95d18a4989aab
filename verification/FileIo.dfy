/**
 The loops around `pread` and `pwrite`, which may transfer less than they are asked to.
 */
module FileIo {
  import opened PageTable

  /** The file after `data` has been written at `off`. */
  function Patched(file: seq<Byte>, off: nat, data: seq<Byte>): (r: seq<Byte>)
    requires off + |data| <= |file|
    ensures |r| == |file|
  {
    file[..off] + data + file[off + |data|..]
  }

  /** `vmm_read`: `got(i)` bounds what the `i`-th call transfers; however the calls are cut, the buffer ends
      up with exactly the bytes asked for. */
  method ReadAll(file: seq<Byte>, off: nat, len: nat, got: nat -> nat) returns (buf: seq<Byte>)
    requires 0 < len && off + len <= |file| && forall i :: 0 < got(i)
    ensures buf == file[off..off + len]
  {
    buf := [];
    var rest, at, i := len, off, 0;
    while rest > 0
      invariant 0 <= rest && at + rest == off + len && off <= at && buf == file[off..at]
    {
      var n := if got(i) < rest then got(i) else rest;
      buf := buf + file[at..at + n];
      at := at + n;
      rest := rest - n;
      i := i + 1;
    }
  }

  /** What the first call transfers of a buffer of `len` bytes. */
  function FirstCall(len: nat, got: nat -> nat): nat { if got(0) < len then got(0) else len }

  /** `vmm_write`: the length is reduced by itself, not by what was written, so there is one call only. */
  method WriteOnce(file: seq<Byte>, off: nat, buf: seq<Byte>, got: nat -> nat) returns (r: seq<Byte>)
    requires buf != [] && off + |buf| <= |file| && forall i :: 0 < got(i)
    ensures r == Patched(file, off, buf[..FirstCall(|buf|, got)])
  {
    r := file;
    var len, at, start, i := |buf|, off, 0, 0;
    ghost var n0 := FirstCall(|buf|, got);
    while i == 0 || len > 0
      invariant i == 0 ==> r == file && len == |buf| && at == off && start == 0
      invariant i != 0 ==> len == 0 && r == Patched(file, off, buf[..n0])
      decreases if i == 0 then 1 else 0
    {
      var n := if got(i) < len then got(i) else len;
      r := Patched(r, at, buf[start..start + n]);
      at, start := at + n, start + n;
      len := len - len;
      i := i + 1;
    }
  }

  /** For one file: the whole buffer is there afterwards if and only if the bytes the first call left out were
      there already. */
  lemma WriteOnceSuffices(file: seq<Byte>, off: nat, buf: seq<Byte>, n: nat)
    requires off + |buf| <= |file| && n <= |buf|
    ensures Patched(file, off, buf[..n]) == Patched(file, off, buf) <==> file[off + n..off + |buf|] == buf[n..]
  {
    var a, b := Patched(file, off, buf[..n]), Patched(file, off, buf);
    if a == b {
      forall k | n <= k < |buf| ensures file[off + k] == buf[k] { assert a[off + k] == b[off + k]; }
      assert file[off + n..off + |buf|] == buf[n..];
    }
    if file[off + n..off + |buf|] == buf[n..] {
      forall k | n <= k < |buf| ensures file[off + k] == buf[k] {
        assert file[off + k] == file[off + n..off + |buf|][k - n] && buf[k] == buf[n..][k - n];
      }
      forall k | 0 <= k < |file| ensures a[k] == b[k] {
        if off + n <= k < off + |buf| { assert file[off + (k - off)] == buf[k - off]; }
      }
      assert a == b;
    }
  }

  /** For all files: what `WriteOnce` leaves is the whole buffer if and only if the first call is complete. */
  lemma WriteCompleteExactlyWhen(off: nat, buf: seq<Byte>, got: nat -> nat)
    ensures (forall file: seq<Byte> :: off + |buf| <= |file| ==>
               Patched(file, off, buf[..FirstCall(|buf|, got)]) == Patched(file, off, buf))
      <==> |buf| <= got(0)
  {
    if got(0) < |buf| {
      var file := ShortWriteLoses(off, buf, got);
    } else {
      assert buf[..|buf|] == buf;
    }
  }

  /** Whenever the first call falls short there is a file in which bytes are lost. */
  lemma ShortWriteLoses(off: nat, buf: seq<Byte>, got: nat -> nat) returns (file: seq<Byte>)
    requires got(0) < |buf|
    ensures off + |buf| <= |file|
    ensures Patched(file, off, buf[..FirstCall(|buf|, got)]) != Patched(file, off, buf)
  {
    var n := got(0);
    file := seq(off + |buf|, i => buf[n] + 1);
    WriteOnceSuffices(file, off, buf, n);
    assert file[off + n..off + |buf|][0] != buf[n..][0];
  }
}
