/** Byte-addressed access to a device that only moves whole sectors. */
module DiskAccess {
  import opened Division

  type Byte = x: int | 0 <= x < 256

  /** s with the bytes from offset on replaced by data. */
  function Patched(s: seq<Byte>, offset: nat, data: seq<Byte>): (r: seq<Byte>)
    requires offset + |data| <= |s|
    ensures |r| == |s|
  {
    s[..offset] + data + s[offset + |data|..]
  }

  /** Whether a request needs the bounce buffer. */
  predicate Bounced(bps: nat, offset: nat, size: nat)
    requires bps > 0
  {
    offset % bps != 0 || size % bps != 0
  }

  /** The first byte the device moves, and how many: up to a whole sector more than needed. */
  function SpanStart(bps: nat, offset: nat, size: nat): (r: nat)
    requires bps > 0
    ensures r <= offset
  {
    if Bounced(bps, offset, size) then offset - offset % bps else offset
  }

  function SpanSize(bps: nat, offset: nat, size: nat): nat
    requires bps > 0
  {
    if Bounced(bps, offset, size) then
      var n := offset % bps + size;
      n + (bps - n % bps)
    else size
  }

  function SpanEnd(bps: nat, offset: nat, size: nat): (e: nat)
    requires bps > 0
    ensures e >= offset + size
  {
    SpanStart(bps, offset, size) + SpanSize(bps, offset, size)
  }

  /** Aligned spans, and how far they can reach beyond the request. */
  lemma SpanBounds(bps: nat, offset: nat, size: nat)
    requires bps > 0
    ensures SpanStart(bps, offset, size) % bps == 0 && SpanSize(bps, offset, size) % bps == 0
    ensures SpanEnd(bps, offset, size) <= offset + size + bps
    ensures Bounced(bps, offset, size) ==> SpanEnd(bps, offset, size) > offset + size
  {
    if Bounced(bps, offset, size) {
      var n := offset % bps + size;
      RoundsUp(n, bps);
      RoundsDown(offset, bps);
    }
  }

  lemma RoundsUp(n: nat, d: nat)
    requires d > 0
    ensures (n + (d - n % d)) % d == 0
  {
    var q := n / d;
    assert n + (d - n % d) == d * (q + 1);
    MultipleMod(d, q + 1);
  }

  lemma RoundsDown(n: nat, d: nat)
    requires d > 0
    ensures (n - n % d) % d == 0
  {
    var q := n / d;
    assert n - n % d == d * q;
    MultipleMod(d, q);
  }

  /**
   A request inside a disk of whole sectors is served exactly when it is made of whole sectors itself or ends before
   the end of the disk: one that needs the bounce buffer and reaches the last byte is refused.
   */
  lemma ServedIff(bps: nat, length: nat, offset: nat, size: nat)
    requires bps > 0 && length % bps == 0 && offset + size <= length
    ensures SpanEnd(bps, offset, size) <= length <==> !Bounced(bps, offset, size) || offset + size < length
  {
    SpanBounds(bps, offset, size);
    if Bounced(bps, offset, size) && offset + size < length {
      SpanEndMultiple(bps, offset, size);
      MultiplesApart(bps, SpanEnd(bps, offset, size), length);
    }
  }

  lemma SpanEndMultiple(bps: nat, offset: nat, size: nat)
    requires bps > 0
    ensures SpanStart(bps, offset, size) % bps == 0 && SpanSize(bps, offset, size) % bps == 0
    ensures SpanEnd(bps, offset, size) % bps == 0 || !Bounced(bps, offset, size)
  {
    SpanBounds(bps, offset, size);
    SumOfMultiples(bps, SpanStart(bps, offset, size), SpanSize(bps, offset, size));
  }

  /** The last byte of a disk of two sectors, for one. */
  lemma RefusedAtTheEnd()
    ensures SpanEnd(512, 1023, 1) == 1536 > 1024
  {
  }

  class Device {
    const bps: nat
    const bytes: array<Byte>

    ghost predicate Valid() {
      bps > 0
    }

    ghost function Contents(): seq<Byte>
      reads bytes
    {
      bytes[..]
    }

    constructor (bps: nat, length: nat)
      requires bps > 0
      ensures Valid() && this.bps == bps && bytes.Length == length && fresh(bytes)
    {
      this.bps := bps;
      bytes := new Byte[length](_ => 0);
    }

    /** ReadFile and WriteFile on the device, for whole sectors. */
    method ReadSectors(at: nat, n: nat) returns (ok: bool, data: seq<Byte>)
      ensures ok <==> at + n <= bytes.Length
      ensures ok ==> data == Contents()[at..at + n]
    {
      if at + n > bytes.Length {
        return false, [];
      }
      return true, bytes[at..at + n];
    }

    method WriteSectors(at: nat, data: seq<Byte>) returns (ok: bool)
      modifies bytes
      ensures ok <==> at + |data| <= bytes.Length
      ensures Contents() == if ok then Patched(old(Contents()), at, data) else old(Contents())
    {
      if at + |data| > bytes.Length {
        return false;
      }
      for i := 0 to |data|
        invariant forall k | 0 <= k < bytes.Length ::
                    bytes[k] == if at <= k < at + i then data[k - at] else old(bytes[k])
      {
        bytes[at + i] := data[i];
      }
      return true;
    }

    /** dc_disk_read. */
    method Read(size: nat, offset: nat) returns (ok: bool, data: seq<Byte>)
      requires Valid()
      ensures ok <==> SpanEnd(bps, offset, size) <= bytes.Length
      ensures ok ==> data == Contents()[offset..offset + size]
    {
      var start, n := SpanStart(bps, offset, size), SpanSize(bps, offset, size);
      var buffer;
      ok, buffer := ReadSectors(start, n);
      if !ok {
        return false, [];
      }
      data := buffer[offset - start..offset - start + size];
      assert data == Contents()[start..start + n][offset - start..offset - start + size];
    }

    /** dc_disk_write: a request that is not made of whole sectors is read, patched and written back. */
    method Write(data: seq<Byte>, offset: nat) returns (ok: bool)
      requires Valid()
      modifies bytes
      ensures ok <==> SpanEnd(bps, offset, |data|) <= bytes.Length
      ensures Contents() == if ok then Patched(old(Contents()), offset, data) else old(Contents())
    {
      var start, n := SpanStart(bps, offset, |data|), SpanSize(bps, offset, |data|);
      if Bounced(bps, offset, |data|) {
        var buffer;
        ok, buffer := ReadSectors(start, n);
        if !ok {
          return false;
        }
        PatchedTwice(Contents(), start, n, offset, data);
        ok := WriteSectors(start, Patched(buffer, offset - start, data));
      } else {
        ok := WriteSectors(start, data);
      }
    }
  }

  /** Patching a part and putting the part back is patching the whole. */
  lemma PatchedTwice(s: seq<Byte>, start: nat, n: nat, offset: nat, data: seq<Byte>)
    requires start <= offset && offset + |data| <= start + n <= |s|
    ensures Patched(s, start, Patched(s[start..start + n], offset - start, data)) == Patched(s, offset, data)
  {
  }
}
