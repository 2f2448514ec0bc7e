/** The score routines as they run, on scores held in arrays. */
module ScoreRoutines {
  import opened Machine
  import S = Scores

  method BcdStringAdd(cpu: S.Cpu, dst: array<U8>, src: array<U8>)
    requires dst.Length == src.Length
    modifies dst
    ensures dst[..] == S.Add(cpu, old(dst[..]), old(src[..])).0
  {
    var i: nat, carry: S.Carry := dst.Length, 0;
    ghost var a, b := dst[..], src[..];
    S.NothingAdded(cpu, a, b);
    hide S.AddByte, S.AddedFrom;
    while i > 0
      invariant i <= dst.Length && S.AddedFrom(cpu, a, b, dst[..], carry, i)
      invariant forall j | 0 <= j < i :: src[j] == b[j]
    {
      i := i - 1;
      ghost var before := dst[..];
      S.AddStep(cpu, a, b, before, carry, i);
      var (sum, c) := S.AddByte(cpu, dst[i], src[i], carry);
      dst[i], carry := sum, c;
      assert dst[..] == before[i := sum];
    }
    S.AllAdded(cpu, a, b, dst[..], carry);
  }

  // Addition of a copy, one time less than the multiplier.
  method ScoreMul(cpu: S.Cpu, s: array<U8>, multiplier: U8)
    modifies s
    ensures s[..] == S.Multiply(cpu, old(s[..]), multiplier)
  {
    if multiplier > 1 {
      var copy := new U8[s.Length](i requires 0 <= i < s.Length reads s => s[i]);
      assert copy[..] == s[..];
      var m: U8 := multiplier;
      while m > 1
        invariant 1 <= m <= multiplier
        invariant copy[..] == old(s[..])
        invariant s[..] == S.Repeated(cpu, old(s[..]), multiplier - m)
      {
        BcdStringAdd(cpu, s, copy);
        m := m - 1;
      }
    }
  }

  // The first differing byte decides, as for memcmp.
  method ScoreCompare(s1: array<U8>, s2: array<U8>) returns (order: int)
    requires s1.Length == s2.Length
    ensures order == S.Compare(s1[..], s2[..])
  {
    var k := 0;
    while k < s1.Length
      invariant k <= s1.Length
      invariant S.Compare(s1[..], s2[..]) == S.Compare(s1[k..], s2[k..])
    {
      assert s1[k..][1..] == s1[k + 1..] && s2[k..][1..] == s2[k + 1..];
      if s1[k] > s2[k] { return 1; }
      if s1[k] < s2[k] { return -1; }
      k := k + 1;
    }
    return 0;
  }
}
