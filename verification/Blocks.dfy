/** Block state ids, and the bound on them that the registry size gives. */
module Blocks {
  import opened Powers

  datatype BlockStates = BlockStates(
    air: nat, stone: nat, dirt: nat, grassBlock: nat, bedrock: nat, totalStates: nat)
  {
    /** Width of an inline id. */
    function DirectBits(): nat {
      BitsFor(totalStates)
    }

    predicate IsAir(state: nat) {
      state == air
    }

    /** A `u32` registry size that covers the named ids. */
    ghost predicate Registered() {
      && totalStates <= 0xFFFF_FFFF
      && air < totalStates && stone < totalStates && dirt < totalStates
      && grassBlock < totalStates && bedrock < totalStates
    }

    /** Every registered id fits the direct width, and that width is one `BitStorage` accepts. */
    lemma DirectWidthCovers(id: nat)
      requires totalStates <= 0xFFFF_FFFF && id < totalStates
      ensures 1 <= DirectBits() <= 32 && id < Pow2(DirectBits())
    {
      Pow2Of32();
      BitsForIsLeast(totalStates, 32);
      BitsForIsLeast(totalStates, DirectBits());
    }

    /** And it is the least such width, though never zero. */
    lemma DirectWidthIsLeast(bits: nat)
      requires bits >= 1
      ensures 1 <= DirectBits() && (DirectBits() <= bits <==> totalStates <= Pow2(bits))
    {
      BitsForIsLeast(totalStates, bits);
    }
  }
}
