/** msg_preserve_all_fields of cf/src/msg.c: a parsed message takes its values out of the receive buffer. */
module Preserve {
  import opened Bytes
  import opened Msg

  /** A field of a message: unset, a number, or a buffer somewhere, which the message has allocated or not. */
  datatype Slot = Empty | Small(v: int) | At(arr: array<Octet>, off: nat, len: nat, isFree: bool)

  ghost predicate In(s: Slot) {
    s.At? ==> s.off + s.len <= s.arr.Length
  }

  /** The value of a field. */
  ghost function Value(s: Slot): Field
    reads if s.At? then {s.arr} else {}
  {
    match s
    case Empty => Unset
    case Small(v) => Num(v)
    case At(a, off, len, _) => if off + len <= a.Length then Buf(a[off..off + len]) else Unset
  }

  /** Two fields share no byte. */
  ghost predicate Apart(s: Slot, r: Slot) {
    s.At? && r.At? && s.arr == r.arr ==> s.off + s.len <= r.off || r.off + r.len <= s.off
  }

  /**
    The field is in the first `used` bytes of the message's own scratch space or in a block the message has
    allocated.
   */
  ghost predicate Own(s: Slot, scratch: array<Octet>, used: nat) {
    s.At? ==> In(s) && if s.isFree then s.arr != scratch else s.arr == scratch && s.off + s.len <= used
  }

  /** The field is in the buffer the message was parsed from. */
  ghost predicate Borrowed(s: Slot, buf: array<Octet>) {
    s.At? ==> s.arr == buf && In(s) && !s.isFree
  }

  class Message {
    const scratch: array<Octet>
    var used: nat
    var fields: seq<Slot>
    var justParsed: bool

    constructor (n: nat, size: nat)
      ensures used == 0 && !justParsed && |fields| == n && fresh(scratch) &&
        forall i :: 0 <= i < n ==> fields[i] == Empty
    {
      scratch, used, fields, justParsed := new Octet[size], 0, seq(n, _ => Empty), false;
    }

    /** msg_field_save. */
    method Save(i: nat)
      requires i < |fields| && In(fields[i]) && used <= scratch.Length && (fields[i].At? ==> fields[i].arr != scratch)
      modifies this`used, this`fields, scratch
      ensures |fields| == |old(fields)| && forall k :: 0 <= k < |fields| && k != i ==> fields[k] == old(fields[k])
      ensures old(used) <= used <= scratch.Length && scratch[..old(used)] == old(scratch[..used])
      ensures Own(fields[i], scratch, used) && Value(fields[i]) == old(Value(fields[i]))
      ensures fields[i].At? ==> if fields[i].isFree then fresh(fields[i].arr) else fields[i].off == old(used)
    {
      var s := fields[i];
      if !s.At? {
        return;
      }
      if scratch.Length - used >= s.len {
        forall k | 0 <= k < s.len {
          scratch[used + k] := s.arr[s.off + k];
        }
        assert scratch[used..used + s.len] == s.arr[s.off..s.off + s.len];
        fields := fields[i := At(scratch, used, s.len, false)];
        used := used + s.len;
      } else {
        var block := new Octet[s.len];
        forall k | 0 <= k < s.len {
          block[k] := s.arr[s.off + k];
        }
        assert block[0..s.len] == s.arr[s.off..s.off + s.len];
        fields := fields[i := At(block, 0, s.len, true)];
      }
    }

    /**
      Every value is kept, and is now in bytes of the message's own that no other field shares: nothing
      written to the receive buffer afterwards can change it.
     */
    method PreserveAll(buf: array<Octet>)
      requires used <= scratch.Length && buf != scratch &&
        (justParsed ==> forall i :: 0 <= i < |fields| ==> Borrowed(fields[i], buf))
      modifies this, scratch
      ensures |fields| == |old(fields)| && used <= scratch.Length && !justParsed
      ensures forall i :: 0 <= i < |fields| ==> Value(fields[i]) == old(Value(fields[i]))
      ensures old(justParsed) ==> forall i :: 0 <= i < |fields| ==> Own(fields[i], scratch, used)
      ensures old(justParsed) ==> forall i, j :: 0 <= i < j < |fields| ==> Apart(fields[i], fields[j])
      ensures old(justParsed) ==> forall i :: 0 <= i < |fields| && fields[i].At? ==> fields[i].arr != buf
      ensures !old(justParsed) ==> fields == old(fields) && scratch[..] == old(scratch[..])
    {
      if !justParsed {
        return;
      }
      var i := 0;
      while i < |fields|
        invariant 0 <= i <= |fields| == |old(fields)| && used <= scratch.Length
        invariant forall k :: i <= k < |fields| ==> fields[k] == old(fields[k])
        invariant forall k :: 0 <= k < i ==> Own(fields[k], scratch, used) && (fields[k].At? ==> fields[k].arr != buf)
        invariant forall k :: 0 <= k < i ==> Value(fields[k]) == old(Value(fields[k]))
        invariant forall k, j :: 0 <= k < j < i ==> Apart(fields[k], fields[j])
      {
        ghost var u, f, c := used, fields, scratch[..];
        label before:
        Save(i);
        forall k | 0 <= k < i ensures Value(fields[k]) == old@before(Value(f[k])) {
          if f[k].At? && f[k].arr == scratch {
            SamePrefix(c, scratch[..], u, f[k].off, f[k].len);
          }
        }
        i := i + 1;
      }
      justParsed := false;
    }
  }

  lemma SamePrefix(a: seq<Octet>, b: seq<Octet>, u: nat, off: nat, len: nat)
    requires off + len <= u <= |a| == |b| && a[..u] == b[..u]
    ensures a[off..off + len] == b[off..off + len]
  {
    assert a[off..off + len] == a[..u][off..off + len] == b[..u][off..off + len] == b[off..off + len];
  }
}
