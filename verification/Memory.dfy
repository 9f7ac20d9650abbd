/** Moving items within one buffer. */
module Memory {

  /** `memmove`: the two stretches may overlap. */
  method MemMove<T>(buf: array<T>, dst: nat, src: nat, n: nat)
    requires dst + n <= buf.Length && src + n <= buf.Length
    modifies buf
    ensures buf[..] == old(buf[..dst]) + old(buf[src..src + n]) + old(buf[dst + n..])
  {
    forall i | 0 <= i < n {
      buf[dst + i] := buf[src + i];
    }
  }
}
