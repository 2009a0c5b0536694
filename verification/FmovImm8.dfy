/** The constants FMOV can load (f64_fmov_imm8), against the architecture's VFPExpandImm. */
module FmovImm8 {
  import opened Words
  import opened Arm

  /** Sign, bit 54 and bits 53 to 48 of the pattern: the only imm8 that could expand to it. */
  function Candidate(bits: Word): Byte {
    (bits / 0x100_0000_0000_0000) / 0x80 * 0x80 + (bits / 0x40_0000_0000_0000) % 2 * 0x40
    + (bits / 0x1_0000_0000_0000) % 0x40
  }

  function FmovImm8(bits: Word): (r: Option<Byte>)
    ensures r.Some? <==> exists imm8: Byte :: VFPExpandImm(imm8) == bits
    ensures r.Some? ==> forall imm8: Byte :: VFPExpandImm(imm8) == bits <==> imm8 == r.value
  {
    var imm8 := Candidate(bits);
    var s, b6, rest := imm8 / 0x80, (imm8 / 0x40) % 2, imm8 % 0x40;
    var rec := s * 0x8000_0000_0000_0000 + (if b6 == 1 then 0 else 0x4000_0000_0000_0000)
      + (if b6 == 1 then 0xFF * 0x40_0000_0000_0000 else 0) + rest * 0x1_0000_0000_0000;
    Expansions(bits);
    assert rec == VFPExpandImm(imm8);
    if rec == bits then Some(imm8) else None
  }

  lemma PartsOf(s: Bit, c: nat, rest: nat)
    requires c <= 0x100 && rest < 0x40
    ensures var v := s * 0x8000_0000_0000_0000 + c * 0x40_0000_0000_0000 + rest * 0x1_0000_0000_0000;
      && v < TWO64 && v / 0x8000_0000_0000_0000 == s && v / 0x40_0000_0000_0000 == 512 * s + c
      && v / 0x1_0000_0000_0000 == 0x8000 * s + 0x40 * c + rest
  {
  }

  /** What expands to `bits` is read off by Candidate. */
  lemma CandidateIs(imm8: Byte)
    ensures Candidate(VFPExpandImm(imm8)) == imm8
  {
    var s, b6, rest := imm8 / 0x80, (imm8 / 0x40) % 2, imm8 % 0x40;
    var c := if b6 == 1 then 0xFF else 0x100;
    PartsOf(s, c, rest);
    var v := VFPExpandImm(imm8);
    assert v == s * 0x8000_0000_0000_0000 + c * 0x40_0000_0000_0000 + rest * 0x1_0000_0000_0000;
    hide VFPExpandImm;
    assert (v / 0x1_0000_0000_0000) % 0x40 == rest;
    assert v / 0x100_0000_0000_0000 / 0x80 == s;
    assert (512 * s + c) % 2 == b6;
  }

  lemma Expansions(bits: Word)
    ensures forall imm8: Byte :: VFPExpandImm(imm8) == bits ==> imm8 == Candidate(bits)
  {
    forall imm8: Byte | VFPExpandImm(imm8) == bits
      ensures imm8 == Candidate(bits)
    {
      CandidateIs(imm8);
    }
  }
}
