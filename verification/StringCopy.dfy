/** The replacement for strncpy_s (c/c11_support.c; the function is specified in
    section K.3.7.1.4 of ISO/IEC 9899:2011). */
module StringCopy {
  import opened Common

  const EINVAL := 22
  const ERANGE := 34
  const STRUNCATE := 80

  /** (size_t) -1, the count that asks for truncation. */
  const TRUNCATE := 0xFFFF_FFFF_FFFF_FFFF

  /** Length of the string at the start of `src`: the index of the first NUL, or
      the whole length when there is none. */
  function StrLen(src: seq<Byte>): (n: nat)
    ensures n <= |src|
    ensures n < |src| ==> src[n] == 0
    ensures forall i :: 0 <= i < n ==> src[i] != 0
  {
    if src == [] || src[0] == 0 then 0
    else
      var n := StrLen(src[1..]);
      assert forall i :: 1 <= i < n + 1 ==> src[i] == src[1..][i - 1];
      1 + n
  }

  function Min(a: nat, b: nat): nat {
    if a < b then a else b
  }

  /** The caller's side of the contract: the destination holds `size` bytes, and
      the source is NUL-terminated or long enough not to be overrun. */
  ghost predicate Readable(src: seq<Byte>, size: nat, count: nat) {
    StrLen(src) < |src| || Min(size, count) <= |src|
  }

  /** How many bytes the loops may copy: `count` does not bound a truncating copy. */
  function Limit(size: nat, count: nat): nat {
    if count == TRUNCATE then size else Min(size, count)
  }

  /** The copying loops.  They copy the string with its NUL, or stop when
      `availableSize` or, unless truncating, `count` has been counted down. */
  method CopyLoop(dest: array<Byte>, size: nat, src: seq<Byte>, count: nat) returns (availableSize: nat)
    requires 0 < size <= dest.Length && 0 < count && (StrLen(src) < |src| || Limit(size, count) <= |src|)
    modifies dest
    ensures StrLen(src) < Limit(size, count) && StrLen(src) < |src| ==>
              availableSize == size - StrLen(src)
              && dest[..] == src[..StrLen(src) + 1] + old(dest[..])[StrLen(src) + 1..]
    ensures StrLen(src) >= Limit(size, count) || StrLen(src) >= |src| ==>
              availableSize == size - Limit(size, count) && Limit(size, count) <= |src|
              && dest[..] == src[..Limit(size, count)] + old(dest[..])[Limit(size, count)..]
  {
    ghost var n, limit := StrLen(src), Limit(size, count);
    var p, left, more := 0, count, true;
    availableSize := size;
    while more
      invariant 0 <= p <= limit && p <= |src| && p <= n + 1
      invariant more ==> p < limit && p <= n && availableSize == size - p
      invariant more ==> left == if count == TRUNCATE then count else count - p
      invariant !more && p <= n ==> p == limit && availableSize == size - p
      invariant !more && p == n + 1 ==> n < |src| && n < limit && availableSize == size - n
      invariant forall i :: 0 <= i < p ==> dest[i] == src[i]
      invariant forall i :: p <= i < dest.Length ==> dest[i] == old(dest[i])
      decreases limit - p, more
    {
      dest[p] := src[p];
      p := p + 1;
      if src[p - 1] == 0 {
        more := false;
      } else {
        availableSize := availableSize - 1;
        if availableSize == 0 {
          more := false;
        } else if count != TRUNCATE {
          left := left - 1;
          more := left > 0;
        }
      }
    }
    assert dest[..] == src[..p] + old(dest[..])[p..];
  }

  /** strncpy_s.  The source is None for a null pointer. */
  method StrncpyS(dest: array?<Byte>, size: nat, src: Option<seq<Byte>>, count: nat) returns (r: nat)
    requires dest != null ==> size <= dest.Length
    requires size <= TRUNCATE && count <= TRUNCATE
    requires dest != null && src.Some? ==> Readable(src.value, size, count)
    modifies if dest != null then {dest} else {}
    ensures dest == null || size == 0 ==> r == if dest == null && size == 0 && count == 0 then 0 else 22
    ensures dest != null && size == 0 ==> dest[..] == old(dest[..])
    ensures dest != null && size > 0 && (count == 0 || src.None?) ==>
              r == (if count == 0 then 0 else 22) && dest[..] == [0] + old(dest[..])[1..]
    ensures dest != null && size > 0 && count > 0 && src.Some? ==>
              Outcome(old(dest[..]), dest[..], size, src.value, count, r)
  {
    if count == 0 && dest == null && size == 0 {
      return 0;
    }
    if dest == null || size == 0 {
      return EINVAL;
    }
    if count == 0 {
      dest[0] := 0;
      return 0;
    }
    if src.None? {
      dest[0] := 0;
      return EINVAL;
    }
    var availableSize := CopyLoop(dest, size, src.value, count);
    if availableSize == 0 {
      if count == TRUNCATE {
        dest[size - 1] := 0;
        assert dest[..] == src.value[..size - 1] + [0] + old(dest[..])[size..];
        return STRUNCATE;
      }
      dest[0] := 0;
      assert dest[..] == [0] + src.value[1..size] + old(dest[..])[size..];
      return ERANGE;
    }
    r := 0;
  }

  /** What a call with a destination, a source and a positive count does:
      - the string and its NUL fit in `size` and `count`: 0, whole string copied;
      - otherwise, `count` is less than `size`: 0, `count` bytes and no NUL added;
      - otherwise, truncation was asked for: STRUNCATE, longest terminated prefix;
      - otherwise: ERANGE, empty string. */
  ghost predicate Outcome(before: seq<Byte>, after: seq<Byte>, size: nat, src: seq<Byte>, count: nat, r: nat)
    requires 0 < size <= |before| && count > 0 && Readable(src, size, count)
  {
    var n := StrLen(src);
    if n < |src| && n < Min(size, count) then
      r == 0 && after == src[..n + 1] + before[n + 1..]
    else if count < size then
      r == 0 && after == src[..count] + before[count..]
    else if count == TRUNCATE then
      r == 80 && after == src[..size - 1] + [0] + before[size..]
    else
      r == 34 && after == [0] + src[1..size] + before[size..]
  }

  /** Nothing at or past `size` is written, whatever the outcome. */
  lemma StaysInBounds(before: seq<Byte>, after: seq<Byte>, size: nat, src: seq<Byte>, count: nat, r: nat)
    requires 0 < size <= |before| && count > 0 && Readable(src, size, count)
    requires Outcome(before, after, size, src, count, r)
    ensures |after| == |before| && after[size..] == before[size..]
  {
    var n := StrLen(src);
    if n < |src| && n < Min(size, count) {
      assert before[n + 1..][size - n - 1..] == before[size..];
    } else if count < size {
      assert before[count..][size - count..] == before[size..];
    }
  }

  /** With a terminated source and a count no smaller than the size, as at both
      call sites of c/loader.c: the call succeeds iff the string and its NUL fit,
      and then, as after truncation, the destination holds a terminated string. */
  lemma FitsIffSucceeds(before: seq<Byte>, after: seq<Byte>, size: nat, src: seq<Byte>, count: nat, r: nat)
    requires 0 < size <= |before| && size <= count <= TRUNCATE
    requires StrLen(src) < |src| && Outcome(before, after, size, src, count, r)
    ensures r == 0 <==> StrLen(src) + 1 <= size
    ensures r == 0 ==> |after| == |before| && StrLen(after) == StrLen(src) && after[..StrLen(src)] == src[..StrLen(src)]
    ensures r == STRUNCATE ==> count == TRUNCATE && |after| == |before| && StrLen(after) == size - 1
                               && after[..size - 1] == src[..size - 1]
    ensures r == ERANGE ==> StrLen(after) == 0
    ensures r == 0 || r == STRUNCATE || r == ERANGE
  {
    var n := StrLen(src);
    if n + 1 <= size {
      StrLenIs(after, n);
    } else if count == TRUNCATE {
      StrLenIs(after, size - 1);
    } else {
      StrLenIs(after, 0);
    }
  }

  lemma StrLenIs(s: seq<Byte>, n: nat)
    requires n < |s| && s[n] == 0 && forall i :: 0 <= i < n ==> s[i] != 0
    ensures StrLen(s) == n
  {
  }

  /** A count below the size gives an unterminated result exactly when the count
      runs out before the string does. */
  lemma TerminatedIffCountSuffices(before: seq<Byte>, after: seq<Byte>, size: nat, src: seq<Byte>, count: nat, r: nat)
    requires 0 < count < size <= |before| && size <= TRUNCATE
    requires StrLen(src) < |src| && Outcome(before, after, size, src, count, r)
    ensures r == 0
    ensures (forall i :: 0 <= i < count ==> after[i] != 0) <==> count <= StrLen(src)
  {
    var n := StrLen(src);
    if n < count {
      assert after[n] == 0;
    } else {
      assert forall i :: 0 <= i < count ==> after[i] == src[i];
    }
  }
}
