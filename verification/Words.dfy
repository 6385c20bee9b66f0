/**
 Machine words: 32-bit unsigned values, the signed casts under which sequence numbers are
 compared, the increment macro, and time differences under C's truncating division.
 */
module Words {

  type u32 = x: int | 0 <= x < 0x1_0000_0000

  /** The value of `(s32_t)x`. */
  function AsSigned(x: u32): (s: int) {
    if x < 0x8000_0000 then x else x - 0x1_0000_0000
  }

  /** An arithmetic result stored in a u32. */
  function Wrap(x: int): (w: u32) {
    x % 0x1_0000_0000
  }

  /** A difference of two times in microseconds, as `timeval_diff` returns it: milliseconds,
      with C's division, which truncates toward zero. */
  function DiffMs(us: int): (ms: int) {
    if us >= 0 then us / 1000 else -((-us) / 1000)
  }

  /** The macro `seqno_incr`: zero is stuck, the largest word wraps to one. */
  function SeqnoIncr(s: u32): (r: u32) {
    if s == 0 then 0 else if s == 0xffff_ffff then 1 else s + 1
  }

  /** The comparison every acceptance rule of the daemon uses: each side is cast to signed. */
  predicate Newer(a: u32, b: u32) {
    AsSigned(a) > AsSigned(b)
  }

  /** The comparison of section 6.1 of RFC 3561: subtract as words, then look at the sign. */
  predicate NewerRfc(a: u32, b: u32) {
    AsSigned(Wrap(a - b)) > 0
  }

  /** Exactly when the two comparisons agree. */
  lemma CastAgreesWithSubtraction(a: u32, b: u32)
    ensures (Newer(a, b) == NewerRfc(a, b)) <==> -0x8000_0000 <= AsSigned(a) - AsSigned(b) < 0x8000_0000
  {
    var d := a - b;
    assert Wrap(d) == if d >= 0 then d else d + 0x1_0000_0000;
  }

  /** A host that increments its number is believed exactly when it is neither at 0 nor at the
      largest positive signed value. The daemon starts at 0. */
  lemma IncrementIsNewer(s: u32)
    ensures Newer(SeqnoIncr(s), s) <==> s != 0 && s != 0x7fff_ffff
  {
  }

  /** An incremented number is the next word, never 0, and 0 stays 0. */
  lemma IncrementIsNext(s: u32)
    ensures SeqnoIncr(s) == 0 <==> s == 0
    ensures s != 0 ==> SeqnoIncr(s) == if s < 0xffff_ffff then s + 1 else 1
  {
  }

  /** Truncation toward zero: the sign is lost within one millisecond on either side. */
  lemma DiffMsSign(us: int)
    ensures DiffMs(us) > 0 <==> us >= 1000
    ensures DiffMs(us) < 0 <==> us <= -1000
  {
  }
}
