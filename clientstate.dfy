// The client's own control state: the held-input bitmask, the selected
// weapon and the view angles (struct clientstate of userclient.hpp).

module ClientInput {
  // ---------------------------------------------------------------------
  // enum class ClientInput : uint16_t

  const Attack: bv16 := 0x0001
  const Dodge: bv16 := 0x0002
  const Block: bv16 := 0x0004
  const Forward: bv16 := 0x0008
  const Back: bv16 := 0x0010
  const Left: bv16 := 0x0020
  const Right: bv16 := 0x0040
  const Sprint: bv16 := 0x0200

  /** Every input the enumeration names, in declaration order. */
  const Inputs: seq<bv16> := [Attack, Dodge, Block, Forward, Back, Left, Right, Sprint]

  /** b has exactly one bit set. */
  predicate SingleBit(b: bv16) {
    b != 0 && b & (b - 1) == 0
  }

  /** Each input is one bit of its own, and no two inputs share a bit. */
  lemma InputsAreSingleBits()
    ensures forall i :: 0 <= i < |Inputs| ==> SingleBit(Inputs[i])
  {
  }

  lemma InputsAreDisjoint()
    ensures forall i, j :: 0 <= i < |Inputs| && 0 <= j < |Inputs| && i != j ==> Inputs[i] & Inputs[j] == 0
  {
  }

  // ---------------------------------------------------------------------
  // The mask updates, as values

  /** input |= inp: inp's bits become set and every other bit keeps its value. */
  function Pressed(input: bv16, inp: bv16): (r: bv16)
    ensures r & inp == inp
    ensures r & !inp == input & !inp
  {
    input | inp
  }

  /** input &= ~inp: inp's bits become clear and every other bit keeps its value. */
  function Released(input: bv16, inp: bv16): (r: bv16)
    ensures r & inp == 0
    ensures r & !inp == input & !inp
  {
    input & !inp
  }

  /** Pressing or releasing an input leaves every input that shares no bit
      with it as it was (by InputsAreDisjoint, every other input). */
  lemma OtherInputsKept(input: bv16, a: bv16, b: bv16)
    requires a & b == 0
    ensures Pressed(input, a) & b == input & b
    ensures Released(input, a) & b == input & b
  {
  }

  /** Releasing what was pressed gives back the mask without it. */
  lemma ReleaseAfterPress(input: bv16, a: bv16)
    ensures Released(Pressed(input, a), a) == Released(input, a)
  {
  }

  // ---------------------------------------------------------------------
  // struct clientstate

  class ClientState {
    var weaponIdx: bv8
    /** The view angles, held as the bits of their IEEE-754 singles. */
    var yaw: bv32
    var pitch: bv32
    var input: bv16

    constructor ()
      ensures weaponIdx == 0 && yaw == 0 && pitch == 0 && input == 0
    {
      weaponIdx, yaw, pitch, input := 0, 0, 0, 0;
    }

    /** setinput(inp). */
    method SetInput(inp: bv16)
      modifies this
      ensures input == Pressed(old(input), inp)
      ensures weaponIdx == old(weaponIdx) && yaw == old(yaw) && pitch == old(pitch)
    {
      input := input | inp;
    }

    /** clearinput(inp). */
    method ClearInput(inp: bv16)
      modifies this
      ensures input == Released(old(input), inp)
      ensures weaponIdx == old(weaponIdx) && yaw == old(yaw) && pitch == old(pitch)
    {
      input := input & !inp;
    }

    /** clearinput(): nothing held. */
    method ClearAllInput()
      modifies this
      ensures input == 0
      ensures forall i :: 0 <= i < |Inputs| ==> input & Inputs[i] == 0
      ensures weaponIdx == old(weaponIdx) && yaw == old(yaw) && pitch == old(pitch)
    {
      input := 0;
    }
  }
}
