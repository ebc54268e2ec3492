/**
 The vocabulary a state set is written in: GL modes and their values, attribute
 categories, attribute instances, and the mode side effect an attribute has on
 the state set it is installed in. The flag values, the attribute type ids, the
 rendering hints and the render-bin modes are declared in headers that are not
 part of this model; the values below are stand-ins. The flags are taken to be
 OFF = 0 and the single bits ON = 1 (bit 0), OVERRIDE = 2 (bit 1) and INHERIT = 8 (bit 3),
 and IsInheritIsMask states the INHERIT test as bit 3 itself. The default attribute types
 are taken to be 0..6 in installation order.
 */
module StateAttributes {

  /** A GL mode (a `GLenum` such as `GL_LIGHTING`): the key of the mode table. */
  type GLMode = int

  /**
   `StateAttribute::GLModeValue` / `OverrideValue`: an unsigned 32-bit mask, ordered
   as an unsigned integer. A bit test `value & BIT` for a single-bit BIT is written
   as the arithmetic test of that bit; OverrideBitsIsMask and IsInheritIsMask tie these
   tests to the bitwise `&` on `bv32`.
   */
  newtype ModeValue = v: int | 0 <= v < 0x1_0000_0000

  const OFF: ModeValue := 0x0
  const ON: ModeValue := 0x1
  const OVERRIDE: ModeValue := 0x2
  const INHERIT: ModeValue := 0x8

  /** The value carries the INHERIT bit: "remove the entry" rather than "store". */
  predicate IsInherit(v: ModeValue)
  {
    (v / INHERIT) % 2 == 1
  }

  /** The OVERRIDE bit is set in v. */
  predicate IsOverride(v: ModeValue)
  {
    (v / OVERRIDE) % 2 == 1
  }

  /** `value & OVERRIDE`: the flags kept with an attribute entry. */
  function OverrideBits(v: ModeValue): (r: ModeValue)
    ensures r == OFF || r == OVERRIDE
    ensures r == OVERRIDE <==> IsOverride(v)
    ensures !IsInherit(r)
  {
    if IsOverride(v) then OVERRIDE else OFF
  }

  /** OverrideBits is the C++ `value & OVERRIDE` on the 32-bit value. */
  lemma OverrideBitsIsMask(v: ModeValue)
    ensures OverrideBits(v) as bv32 == (v as bv32) & (OVERRIDE as bv32)
  {
  }

  /** IsInherit is the C++ test `value & INHERIT` on the 32-bit value: bit 3 is set. */
  lemma IsInheritIsMask(v: ModeValue)
    ensures IsInherit(v) <==> ((v as bv32) >> 3) & 1 == 1
    ensures IsInherit(v) <==> (v as bv32) & (INHERIT as bv32) == INHERIT as bv32
  {
    BitThree(v as bv32);
  }

  /** For a 32-bit value, bit 3 is set exactly when masking with INHERIT keeps INHERIT. */
  lemma BitThree(b: bv32)
    ensures (b >> 3) & 1 == 1 <==> b & (INHERIT as bv32) == INHERIT as bv32
  {
  }

  /** Neither OFF nor ON carries the OVERRIDE or the INHERIT bit. */
  lemma PlainValuesCarryNoFlags()
    ensures OverrideBits(OFF) == OFF && OverrideBits(ON) == OFF
    ensures !IsInherit(OFF) && !IsInherit(ON)
  {
  }

  // The GL modes that setGlobalDefaults switches off; values as in OpenGL's gl.h.
  const GL_POINT_SMOOTH: GLMode := 0x0B10
  const GL_LIGHTING: GLMode := 0x0B50
  const GL_FOG: GLMode := 0x0B60
  const GL_TEXTURE_GEN_S: GLMode := 0x0C60
  const GL_TEXTURE_GEN_T: GLMode := 0x0C61
  const GL_TEXTURE_GEN_R: GLMode := 0x0C62
  const GL_TEXTURE_GEN_Q: GLMode := 0x0C63
  const GL_TEXTURE_2D: GLMode := 0x0DE1

  /** `StateAttribute::Type`: the category of an attribute, the key of the attribute table. */
  type AttributeType = int

  const ALPHAFUNC: AttributeType := 0
  const CULLFACE: AttributeType := 1
  const FRONTFACE: AttributeType := 2
  const MATERIAL: AttributeType := 3
  const POLYGONMODE: AttributeType := 4
  const TRANSPARENCY: AttributeType := 5
  const DEPTH: AttributeType := 6

  /**
   A (non-null) pointer to an attribute instance: its category, as `getType()`
   reports it, and an opaque, ordered identity standing for the pointer value.
   */
  datatype Attribute = Attribute(kind: AttributeType, handle: nat)

  /** `RefAttributePair`: the attribute held and the override flags stored with it. */
  datatype AttributePair = AttributePair(attribute: Attribute, overrideValue: ModeValue)

  /** One call `setMode(mode, value)` made by an attribute's mode hook. */
  datatype ModeEdit = ModeEdit(mode: GLMode, value: ModeValue)

  /**
   `StateAttribute::setStateSetModes(stateset, value)`, which the concrete attribute
   classes define: the sequence of setMode calls the attribute makes on the state set
   when it is installed with, or removed by, the given value.
   */
  type ModeHook = (Attribute, ModeValue) -> seq<ModeEdit>

  /** `StateSet::RenderingHint`. */
  const DEFAULT_BIN: int := 0
  const OPAQUE_BIN: int := 1
  const TRANSPARENT_BIN: int := 2

  /** `StateSet::RenderBinMode`. */
  datatype RenderBinMode =
    | InheritRenderBinDetails
    | UseRenderBinDetails
    | OverrideRenderBinDetails
    | EncloseRenderBinDetails

}
