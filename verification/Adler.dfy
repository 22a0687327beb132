/** The checksum of the packet format: zlib's Adler-32, section 8.2 of RFC 1950, as the
    signed integer that the codec stores and compares. */
module Adler {
  import opened Bytes
  import opened CInts

  const BASE: int := 65521

  /** The running sums, from the start value 1. */
  function AdlerSums(bytes: seq<byte>): (s: (int, int))
    ensures 0 <= s.0 < BASE && 0 <= s.1 < BASE
  {
    if bytes == [] then (1, 0)
    else
      var last := |bytes| - 1;
      var (a, b) := AdlerSums(bytes[..last]);
      var a' := (a + bytes[last] as int) % BASE;
      (a', (b + a') % BASE)
  }

  /** The checksum as the signed integer the code compares. */
  function CheckSum(bytes: seq<byte>): (c: int)
    ensures FitsInt32(c)
  {
    var (a, b) := AdlerSums(bytes);
    WrapInt32(b * 65536 + a)
  }

  // ------------------------------------------------------------ what it adds up

  function Sum(bytes: seq<byte>): int {
    if bytes == [] then 0 else bytes[0] as int + Sum(bytes[1..])
  }

  /** Each byte as often as there are bytes from it to the end. */
  function Weighted(bytes: seq<byte>): int {
    if bytes == [] then 0 else |bytes| * bytes[0] as int + Weighted(bytes[1..])
  }

  lemma {:induction false} LastByteAdds(bytes: seq<byte>, last: byte)
    ensures Sum(bytes + [last]) == Sum(bytes) + last as int
    ensures Weighted(bytes + [last]) == Weighted(bytes) + Sum(bytes) + last as int
  {
    if bytes != [] {
      LastByteAdds(bytes[1..], last);
      assert (bytes + [last])[1..] == bytes[1..] + [last];
    } else {
      assert (bytes + [last])[1..] == [];
    }
  }

  /** The two sums are those of the bytes, plain and weighted, modulo 65521. */
  lemma {:induction false} AddsUp(bytes: seq<byte>)
    ensures AdlerSums(bytes).0 == (1 + Sum(bytes)) % BASE
    ensures AdlerSums(bytes).1 == (|bytes| + Weighted(bytes)) % BASE
  {
    if bytes != [] {
      var front, last := bytes[..|bytes| - 1], bytes[|bytes| - 1];
      AddsUp(front);
      LastByteAdds(front, last);
      assert front + [last] == bytes;
      var a := AdlerSums(bytes).0;
      AddModulo(1 + Sum(front), last as int);
      AddModulo(|front| + Weighted(front), a);
      AddModulo(1 + Sum(bytes), |front| + Weighted(front));
    }
  }

  lemma AddModulo(x: int, y: int)
    ensures (x % BASE + y) % BASE == (x + y) % BASE
  {
    var q := x / BASE;
    assert x == q * BASE + x % BASE;
    ModuloAdds(x % BASE + y, q);
  }

  lemma {:induction false} ModuloAdds(x: int, q: int)
    ensures (x + q * BASE) % BASE == x % BASE
    decreases if q < 0 then -q else q
  {
    if q > 0 {
      ModuloAdds(x + BASE, q - 1);
      assert (x + BASE) % BASE == x % BASE;
    } else if q < 0 {
      ModuloAdds(x - BASE, q + 1);
      assert (x - BASE) % BASE == x % BASE;
    }
  }

  /** The checksum holds the weighted sum in its upper half and the plain one in its lower. */
  lemma CheckSumExactly(bytes: seq<byte>, c: int)
    requires FitsInt32(c)
    ensures c == CheckSum(bytes) <==>
              c % TWO32 == (|bytes| + Weighted(bytes)) % BASE * 65536 + (1 + Sum(bytes)) % BASE
  {
    hide WrapInt32;
    AddsUp(bytes);
    WrapUndoesModulo(AdlerSums(bytes).1 * 65536 + AdlerSums(bytes).0);
    WrapUndoesModulo(c);
  }

  // ---------------------------------------------------------- what it detects

  lemma {:induction false} SumChanges(bytes: seq<byte>, k: nat, x: byte)
    requires k < |bytes|
    ensures Sum(bytes[k := x]) == Sum(bytes) - bytes[k] as int + x as int
  {
    if k == 0 {
      assert bytes[k := x][1..] == bytes[1..];
    } else {
      SumChanges(bytes[1..], k - 1, x);
      assert bytes[k := x][1..] == bytes[1..][k - 1 := x];
    }
  }

  lemma SmallChangeShows(s: int, d: int)
    requires -BASE < d < BASE && d != 0
    ensures (s + d) % BASE != s % BASE
  {
    AddModulo(s, d);
    var r := s % BASE;
    if r + d < 0 {
      assert (r + d) % BASE == r + d + BASE;
    } else if r + d >= BASE {
      assert (r + d) % BASE == r + d - BASE;
    }
  }

  /** One byte changed always changes the checksum. */
  lemma OneByteShows(bytes: seq<byte>, k: nat, x: byte)
    requires k < |bytes| && x != bytes[k]
    ensures CheckSum(bytes[k := x]) != CheckSum(bytes)
  {
    hide Sum, Weighted, AdlerSums, CheckSum;
    SumChanges(bytes, k, x);
    SmallChangeShows(1 + Sum(bytes), x as int - bytes[k] as int);
    CheckSumExactly(bytes, CheckSum(bytes));
    CheckSumExactly(bytes[k := x], CheckSum(bytes));
  }
}
