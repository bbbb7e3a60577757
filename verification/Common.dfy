/** Definitions that several modules share. */
module Common {
  datatype Option<T> = None | Some(value: T)

  const WRAP := 0x1_0000_0000  // where 32-bit counters wrap

  ghost predicate Distinct<T>(s: seq<T>) {
    forall i, j :: 0 <= i < j < |s| ==> s[i] != s[j]
  }

  lemma {:induction false} SubsetSize<T>(a: set<T>, b: set<T>)
    requires a <= b
    ensures |a| <= |b|
  {
    if a != {} {
      var x :| x in a;
      SubsetSize(a - {x}, b - {x});
    }
  }

  /** A ring of 128 or 512 places finds the same place by the wrapped counter. */
  lemma SlotOfCounter(n: nat)
    ensures n % WRAP % 128 == n % 128 && n % WRAP % 512 == n % 512
  {
    var q, r := n / WRAP, n % WRAP;
    Low128(0x200_0000 * q + r / 128, r % 128);
    Low512(0x80_0000 * q + r / 512, r % 512);
  }

  lemma Low128(k: int, b: int)
    requires 0 <= b < 128
    ensures (128 * k + b) % 128 == b
  {
  }

  lemma Low512(k: int, b: int)
    requires 0 <= b < 512
    ensures (512 * k + b) % 512 == b
  {
  }

  /** One more, around the wrap. */
  lemma CounterStep(n: nat)
    ensures (n % WRAP + 1) % WRAP == (n + 1) % WRAP
  {
  }
}
