/**
 `osg::StateSet`: a sparse render-state container. It holds a mode table (GL mode to
 mode value), an attribute table (attribute type to attribute and override flags), a
 rendering hint and a render-bin specification. Absence of an entry means "inherit
 from the parent state". Both tables iterate in ascending key order, and `compare`
 walks them in lock-step to give a total order used as a sort key.
 */
module StateSets {

  import opened Wrappers
  import opened OrderedMaps
  import opened Lexicographic
  import opened StateAttributes

  /** `StateSet::ModeList`: `std::map<GLMode, GLModeValue>`. */
  type ModeList = seq<(GLMode, ModeValue)>

  /** `StateSet::AttributeList`: `std::map<StateAttribute::Type, RefAttributePair>`. */
  type AttributeList = seq<(AttributeType, AttributePair)>

  // ---------------------------------------------------------------------------
  // The two tables and their invariants

  /** The mode table is a map, and no stored value carries INHERIT: absence is the inherit signal. */
  ghost predicate ModeListValid(s: ModeList)
  {
    StrictlySorted(s) && forall m :: Find(s, m).Some? ==> !IsInherit(Find(s, m).value)
  }

  /** What an attribute entry stored under type t looks like: an attribute of type t, and flags `& OVERRIDE`. */
  predicate WellFormedEntry(t: AttributeType, p: AttributePair)
  {
    p.attribute.kind == t && (p.overrideValue == 0 || p.overrideValue == OVERRIDE)
  }

  /** The attribute table is a map, at most one entry per type, each entry well formed. */
  ghost predicate AttributeListValid(s: AttributeList)
  {
    StrictlySorted(s) && forall t :: Find(s, t).Some? ==> WellFormedEntry(t, Find(s, t).value)
  }

  /** In a sorted table, the entry at position i is what find returns for its key. */
  lemma {:induction false} FindAt<V>(s: seq<(Key, V)>, i: nat)
    requires StrictlySorted(s) && i < |s|
    ensures Find(s, s[i].0) == Some(s[i].1)
    decreases i
  {
    if i > 0 {
      assert s[0].0 < s[i].0;
      assert s[1..][i - 1] == s[i];
      FindAt(s[1..], i - 1);
    }
  }

  /** Every entry of a valid attribute table holds an attribute of the entry's own type. */
  ghost predicate KindsMatchKeys(s: AttributeList)
  {
    forall i :: 0 <= i < |s| ==> s[i].1.attribute.kind == s[i].0
  }

  lemma ValidKindsMatchKeys(s: AttributeList)
    requires AttributeListValid(s)
    ensures KindsMatchKeys(s)
  {
    forall i | 0 <= i < |s| ensures s[i].1.attribute.kind == s[i].0 {
      FindAt(s, i);
    }
  }

  // ---------------------------------------------------------------------------
  // Mode table operations

  /** `setMode(mode, value)` on the table: a value with INHERIT removes the entry, any other is stored. */
  function SetModeIn(s: ModeList, mode: GLMode, value: ModeValue): (r: ModeList)
    requires ModeListValid(s)
    ensures ModeListValid(r)
    ensures Find(r, mode) == if IsInherit(value) then None else Some(value)
    ensures forall m :: m != mode ==> Find(r, m) == Find(s, m)
  {
    if IsInherit(value) then Erase(s, mode) else Insert(s, mode, value)
  }

  /** No edit in the list names mode m. */
  predicate NotEdited(edits: seq<ModeEdit>, m: GLMode)
  {
    forall j :: 0 <= j < |edits| ==> edits[j].mode != m
  }

  /** The mode table after a sequence of setMode calls, made in order. */
  function ApplyModeEdits(s: ModeList, edits: seq<ModeEdit>): (r: ModeList)
    requires ModeListValid(s)
    ensures ModeListValid(r)
    ensures forall m :: NotEdited(edits, m) ==> Find(r, m) == Find(s, m)
    decreases |edits|
  {
    if |edits| == 0 then s
    else
      var rest := ApplyModeEdits(SetModeIn(s, edits[0].mode, edits[0].value), edits[1..]);
      assert forall m :: NotEdited(edits, m) ==> NotEdited(edits[1..], m);
      rest
  }

  /** Making the calls of a, then those of b, is making the calls of a + b. */
  lemma {:induction false} ApplyModeEditsAppend(s: ModeList, a: seq<ModeEdit>, b: seq<ModeEdit>)
    requires ModeListValid(s)
    ensures ApplyModeEdits(s, a + b) == ApplyModeEdits(ApplyModeEdits(s, a), b)
    decreases |a|
  {
    if |a| == 0 {
      assert a + b == b;
    } else {
      var s' := SetModeIn(s, a[0].mode, a[0].value);
      assert (a + b)[0] == a[0];
      assert (a + b)[1..] == a[1..] + b;
      assert ApplyModeEdits(s, a + b) == ApplyModeEdits(s', a[1..] + b);
      assert ApplyModeEdits(s, a) == ApplyModeEdits(s', a[1..]);
      ApplyModeEditsAppend(s', a[1..], b);
    }
  }

  /** Appending one setMode call to a list of calls. */
  lemma OneMoreEdit(s: ModeList, done: seq<ModeEdit>, e: ModeEdit)
    requires ModeListValid(s)
    ensures ApplyModeEdits(s, done + [e]) == SetModeIn(ApplyModeEdits(s, done), e.mode, e.value)
  {
    ApplyModeEditsAppend(s, done, [e]);
    assert [e][1..] == [];
  }

  /** The last setMode call on a mode decides its entry. */
  lemma LastEditWins(s: ModeList, edits: seq<ModeEdit>, j: nat)
    requires ModeListValid(s)
    requires j < |edits| && NotEdited(edits[j + 1..], edits[j].mode)
    ensures Find(ApplyModeEdits(s, edits), edits[j].mode)
         == if IsInherit(edits[j].value) then None else Some(edits[j].value)
  {
    var e := edits[j];
    assert edits == edits[..j] + [e] + edits[j + 1..];
    ApplyModeEditsAppend(s, edits[..j] + [e], edits[j + 1..]);
    ApplyModeEditsAppend(s, edits[..j], [e]);
    var before := ApplyModeEdits(s, edits[..j]);
    assert [e][1..] == [];
    assert ApplyModeEdits(before, [e]) == SetModeIn(before, e.mode, e.value);
  }

  // ---------------------------------------------------------------------------
  // Attribute table operations

  /** `_attributeList[a.getType()] = RefAttributePair(a, value & OVERRIDE)`. */
  function StoreAttribute(s: AttributeList, a: Attribute, value: ModeValue): (r: AttributeList)
    requires AttributeListValid(s)
    ensures AttributeListValid(r)
    ensures Find(r, a.kind) == Some(AttributePair(a, OverrideBits(value)))
    ensures forall t :: t != a.kind ==> Find(r, t) == Find(s, t)
  {
    Insert(s, a.kind, AttributePair(a, OverrideBits(value)))
  }

  /** Erasing an entry keeps the attribute table valid. */
  lemma EraseKeepsAttributesValid(s: AttributeList, t: AttributeType)
    requires AttributeListValid(s)
    ensures AttributeListValid(Erase(s, t))
  {
  }

  /** One `setAttribute(attribute, value)` store: the attribute and the value it is set with. */
  type Install = (Attribute, ModeValue)

  /** No install in the list is of type t. */
  predicate NotInstalled(installs: seq<Install>, t: AttributeType)
  {
    forall j :: 0 <= j < |installs| ==> installs[j].0.kind != t
  }

  /** The attribute table after a sequence of stores, made in order. */
  function StoreAttributes(s: AttributeList, installs: seq<Install>): (r: AttributeList)
    requires AttributeListValid(s)
    ensures AttributeListValid(r)
    ensures forall t :: NotInstalled(installs, t) ==> Find(r, t) == Find(s, t)
    decreases |installs|
  {
    if |installs| == 0 then s
    else
      var rest := StoreAttributes(StoreAttribute(s, installs[0].0, installs[0].1), installs[1..]);
      assert forall t :: NotInstalled(installs, t) ==> NotInstalled(installs[1..], t);
      rest
  }

  /** Making the stores of a, then those of b, is making the stores of a + b. */
  lemma {:induction false} StoreAttributesAppend(s: AttributeList, a: seq<Install>, b: seq<Install>)
    requires AttributeListValid(s)
    ensures StoreAttributes(s, a + b) == StoreAttributes(StoreAttributes(s, a), b)
    decreases |a|
  {
    if |a| == 0 {
      assert a + b == b;
    } else {
      var s' := StoreAttribute(s, a[0].0, a[0].1);
      assert (a + b)[0] == a[0];
      assert (a + b)[1..] == a[1..] + b;
      assert StoreAttributes(s, a + b) == StoreAttributes(s', a[1..] + b);
      assert StoreAttributes(s, a) == StoreAttributes(s', a[1..]);
      StoreAttributesAppend(s', a[1..], b);
    }
  }

  /** The last store of a type decides its entry. */
  lemma LastInstallWins(s: AttributeList, installs: seq<Install>, j: nat)
    requires AttributeListValid(s)
    requires j < |installs| && NotInstalled(installs[j + 1..], installs[j].0.kind)
    ensures Find(StoreAttributes(s, installs), installs[j].0.kind)
         == Some(AttributePair(installs[j].0, OverrideBits(installs[j].1)))
  {
    var e := installs[j];
    assert installs == installs[..j] + [e] + installs[j + 1..];
    StoreAttributesAppend(s, installs[..j] + [e], installs[j + 1..]);
    StoreAttributesAppend(s, installs[..j], [e]);
    var before := StoreAttributes(s, installs[..j]);
    assert [e][1..] == [];
    assert StoreAttributes(before, [e]) == StoreAttribute(before, e.0, e.1);
  }

  /** Appending one store to a list of stores. */
  lemma OneMoreInstall(s: AttributeList, done: seq<Install>, e: Install)
    requires AttributeListValid(s)
    ensures StoreAttributes(s, done + [e]) == StoreAttribute(StoreAttributes(s, done), e.0, e.1)
  {
    StoreAttributesAppend(s, done, [e]);
    assert [e][1..] == [];
  }

  // ---------------------------------------------------------------------------
  // The order of `compare`

  /** Mode entries compare by mode first, then by value (unsigned). */
  function CompareModeEntries(x: (GLMode, ModeValue), y: (GLMode, ModeValue)): int
  {
    if x.0 < y.0 then -1
    else if y.0 < x.0 then 1
    else if x.1 < y.1 then -1
    else if y.1 < x.1 then 1
    else 0
  }

  /** Attribute entries compare by type, then by the attribute pointer, then by the override flags. */
  function CompareAttributeEntries(x: (AttributeType, AttributePair), y: (AttributeType, AttributePair)): int
  {
    if x.0 < y.0 then -1
    else if y.0 < x.0 then 1
    else if x.1.attribute.handle < y.1.attribute.handle then -1
    else if y.1.attribute.handle < x.1.attribute.handle then 1
    else if x.1.overrideValue < y.1.overrideValue then -1
    else if y.1.overrideValue < x.1.overrideValue then 1
    else 0
  }

  lemma ModeEntryOrder()
    ensures IsTotalPreorder(CompareModeEntries)
    ensures forall x, y :: CompareModeEntries(x, y) == 0 <==> x == y
  {
    forall x, y, z | CompareModeEntries(x, y) <= 0 && CompareModeEntries(y, z) <= 0
      ensures CompareModeEntries(x, z) <= 0
    {
    }
  }

  lemma AttributeEntryOrder()
    ensures IsTotalPreorder(CompareAttributeEntries)
    ensures forall x, y :: CompareAttributeEntries(x, y) == 0 <==>
      x.0 == y.0 && x.1.attribute.handle == y.1.attribute.handle && x.1.overrideValue == y.1.overrideValue
  {
    forall x, y, z | CompareAttributeEntries(x, y) <= 0 && CompareAttributeEntries(y, z) <= 0
      ensures CompareAttributeEntries(x, z) <= 0
    {
    }
  }

  /**
   `lhs.compare(rhs)` on the contents: the mode tables are walked first; only when they
   are equal do the attribute tables decide. Hint and render bin take no part.
   */
  function CompareContents(lhsModes: ModeList, lhsAttributes: AttributeList,
                           rhsModes: ModeList, rhsAttributes: AttributeList): int
  {
    var modes := LexCompare(lhsModes, rhsModes, CompareModeEntries);
    if modes != 0 then modes else LexCompare(lhsAttributes, rhsAttributes, CompareAttributeEntries)
  }

  lemma CompareContentsRange(lm: ModeList, la: AttributeList, rm: ModeList, ra: AttributeList)
    ensures -1 <= CompareContents(lm, la, rm, ra) <= 1
  {
    ModeEntryOrder();
    AttributeEntryOrder();
    LexRange(lm, rm, CompareModeEntries);
    LexRange(la, ra, CompareAttributeEntries);
  }

  lemma CompareContentsAntisymmetric(lm: ModeList, la: AttributeList, rm: ModeList, ra: AttributeList)
    ensures CompareContents(lm, la, rm, ra) == -CompareContents(rm, ra, lm, la)
  {
    ModeEntryOrder();
    AttributeEntryOrder();
    LexAntisymmetric(lm, rm, CompareModeEntries);
    LexAntisymmetric(la, ra, CompareAttributeEntries);
  }

  /** Every state set compares equal to itself. */
  lemma CompareContentsReflexive(m: ModeList, a: AttributeList)
    ensures CompareContents(m, a, m, a) == 0
  {
    CompareContentsAntisymmetric(m, a, m, a);
  }

  lemma CompareContentsTransitive(am: ModeList, aa: AttributeList, bm: ModeList, ba: AttributeList,
                                  cm: ModeList, ca: AttributeList)
    requires CompareContents(am, aa, bm, ba) <= 0 && CompareContents(bm, ba, cm, ca) <= 0
    ensures CompareContents(am, aa, cm, ca) <= 0
  {
    ModeEntryOrder();
    AttributeEntryOrder();
    ModeTablesZero(am, bm);
    ModeTablesZero(bm, cm);
    ModeTablesZero(am, cm);
    LexTransitive(am, bm, cm, CompareModeEntries);
    LexAntisymmetric(am, bm, CompareModeEntries);
    if LexCompare(am, bm, CompareModeEntries) == 0 && LexCompare(bm, cm, CompareModeEntries) == 0 {
      LexTransitive(aa, ba, ca, CompareAttributeEntries);
    }
  }

  /** Two mode tables compare equal exactly when they are equal. */
  lemma ModeTablesZero(lm: ModeList, rm: ModeList)
    ensures LexCompare(lm, rm, CompareModeEntries) == 0 <==> lm == rm
  {
    ModeEntryOrder();
    LexZero(lm, rm, CompareModeEntries);
  }

  /** Two well-formed attribute tables compare equal exactly when they are equal. */
  lemma AttributeTablesZero(la: AttributeList, ra: AttributeList)
    requires KindsMatchKeys(la) && KindsMatchKeys(ra)
    ensures LexCompare(la, ra, CompareAttributeEntries) == 0 <==> la == ra
  {
    AttributeEntryOrder();
    LexZero(la, ra, CompareAttributeEntries);
    if Equivalent(la, ra, CompareAttributeEntries) {
      forall i | 0 <= i < |la| ensures la[i] == ra[i] {
        assert CompareAttributeEntries(la[i], ra[i]) == 0;
      }
    }
  }

  /** compare returns 0 exactly when both mode tables and both attribute tables are equal. */
  lemma CompareContentsZero(lm: ModeList, la: AttributeList, rm: ModeList, ra: AttributeList)
    requires KindsMatchKeys(la) && KindsMatchKeys(ra)
    ensures CompareContents(lm, la, rm, ra) == 0 <==> lm == rm && la == ra
  {
    ModeTablesZero(lm, rm);
    AttributeTablesZero(la, ra);
  }

  /** A difference in the mode tables decides the comparison before the attributes are examined. */
  lemma ModesDecideFirst(lm: ModeList, la: AttributeList, rm: ModeList, ra: AttributeList)
    requires lm != rm
    ensures CompareContents(lm, la, rm, ra) == LexCompare(lm, rm, CompareModeEntries) != 0
  {
    ModeTablesZero(lm, rm);
  }

  /** Strict "less" is transitive too, so compare is a strict weak order usable as a sort key. */
  lemma CompareContentsStrictTransitive(am: ModeList, aa: AttributeList, bm: ModeList, ba: AttributeList,
                                        cm: ModeList, ca: AttributeList)
    requires CompareContents(am, aa, bm, ba) < 0 && CompareContents(bm, ba, cm, ca) < 0
    ensures CompareContents(am, aa, cm, ca) < 0
  {
    CompareContentsTransitive(am, aa, bm, ba, cm, ca);
    if CompareContents(am, aa, cm, ca) == 0 {
      // then c is not greater than a, so b would not be greater than a
      CompareContentsAntisymmetric(am, aa, cm, ca);
      CompareContentsTransitive(bm, ba, cm, ca, am, aa);
      CompareContentsAntisymmetric(am, aa, bm, ba);
    }
  }

  /** A mode table that is a strict prefix of the other compares smaller, whatever the attributes. */
  lemma ShorterModeTableFirst(lm: ModeList, la: AttributeList, rm: ModeList, ra: AttributeList)
    requires |lm| < |rm| && lm == rm[..|lm|]
    ensures CompareContents(lm, la, rm, ra) == -1
  {
    ModeEntryOrder();
    LexPrefix(lm, rm, CompareModeEntries);
  }

  /** With equal mode tables, an attribute table that is a strict prefix of the other compares smaller. */
  lemma ShorterAttributeTableFirst(m: ModeList, la: AttributeList, ra: AttributeList)
    requires |la| < |ra| && la == ra[..|la|]
    ensures CompareContents(m, la, m, ra) == -1
  {
    ModeTablesZero(m, m);
    AttributeEntryOrder();
    LexPrefix(la, ra, CompareAttributeEntries);
  }

  /**
   Within the mode tables the mode decides before the value: at the first position where two
   tables that agree so far differ, the lower mode sorts first whatever the values and the attributes.
   */
  lemma ModeKeyBeforeValue(lm: ModeList, la: AttributeList, rm: ModeList, ra: AttributeList, n: nat)
    requires n < |lm| && n < |rm| && lm[..n] == rm[..n]
    requires lm[n].0 < rm[n].0
    ensures CompareContents(lm, la, rm, ra) == -1
  {
    ModeEntryOrder();
    forall i | 0 <= i < n ensures CompareModeEntries(lm[i], rm[i]) == 0 {
      assert lm[i] == lm[..n][i] == rm[..n][i] == rm[i];
    }
    LexFirstDifference(lm, rm, CompareModeEntries, n);
  }

  /**
   Two attributes of the same type compare by pointer before their override flags: at the first
   position where two attribute tables that agree so far differ, with equal mode tables, the
   entry of the same type with the lower pointer sorts first whatever the flags.
   */
  lemma HandleBeforeOverride(m: ModeList, la: AttributeList, ra: AttributeList, n: nat)
    requires n < |la| && n < |ra| && la[..n] == ra[..n]
    requires la[n].0 == ra[n].0 && la[n].1.attribute.handle < ra[n].1.attribute.handle
    ensures CompareContents(m, la, m, ra) == -1
  {
    ModeTablesZero(m, m);
    AttributeEntryOrder();
    forall i | 0 <= i < n ensures CompareAttributeEntries(la[i], ra[i]) == 0 {
      assert la[i] == la[..n][i] == ra[..n][i] == ra[i];
    }
    LexFirstDifference(la, ra, CompareAttributeEntries, n);
  }

  /**
   For the same mode the value breaks the tie: at the first position where two mode tables that
   agree so far differ, the same mode with the lower value sorts first whatever the attributes.
   */
  lemma ModeValueBreaksTie(lm: ModeList, la: AttributeList, rm: ModeList, ra: AttributeList, n: nat)
    requires n < |lm| && n < |rm| && lm[..n] == rm[..n]
    requires lm[n].0 == rm[n].0 && lm[n].1 < rm[n].1
    ensures CompareContents(lm, la, rm, ra) == -1
  {
    ModeEntryOrder();
    forall i | 0 <= i < n ensures CompareModeEntries(lm[i], rm[i]) == 0 {
      assert lm[i] == lm[..n][i] == rm[..n][i] == rm[i];
    }
    LexFirstDifference(lm, rm, CompareModeEntries, n);
  }

  /**
   The attribute type decides first: with equal mode tables, at the first position where two
   attribute tables that agree so far differ, the lower type sorts first whatever the entries hold.
   */
  lemma AttributeTypeFirst(m: ModeList, la: AttributeList, ra: AttributeList, n: nat)
    requires n < |la| && n < |ra| && la[..n] == ra[..n]
    requires la[n].0 < ra[n].0
    ensures CompareContents(m, la, m, ra) == -1
  {
    ModeTablesZero(m, m);
    AttributeEntryOrder();
    forall i | 0 <= i < n ensures CompareAttributeEntries(la[i], ra[i]) == 0 {
      assert la[i] == la[..n][i] == ra[..n][i] == ra[i];
    }
    LexFirstDifference(la, ra, CompareAttributeEntries, n);
  }

  /**
   The override flags break the last tie: with equal mode tables, at the first position where two
   attribute tables that agree so far differ, the same type and pointer with the lower flags sorts first.
   */
  lemma FlagsBreakTie(m: ModeList, la: AttributeList, ra: AttributeList, n: nat)
    requires n < |la| && n < |ra| && la[..n] == ra[..n]
    requires la[n].0 == ra[n].0 && la[n].1.attribute.handle == ra[n].1.attribute.handle
    requires la[n].1.overrideValue < ra[n].1.overrideValue
    ensures CompareContents(m, la, m, ra) == -1
  {
    ModeTablesZero(m, m);
    AttributeEntryOrder();
    forall i | 0 <= i < n ensures CompareAttributeEntries(la[i], ra[i]) == 0 {
      assert la[i] == la[..n][i] == ra[..n][i] == ra[i];
    }
    LexFirstDifference(la, ra, CompareAttributeEntries, n);
  }

  /** Setting a mode ON in one state set and ON|OVERRIDE (= ON + OVERRIDE, disjoint bits) in another sorts the first one first. */
  lemma OverrideSortsAfter(mode: GLMode)
    ensures CompareContents([(mode, ON)], [], [(mode, ON + OVERRIDE)], []) == -1
  {
  }

  // ---------------------------------------------------------------------------
  // The baseline of setGlobalDefaults

  /** The modes setGlobalDefaults switches off, in the order it does so. */
  const DefaultOffModes: seq<GLMode> := [
    GL_LIGHTING, GL_FOG, GL_POINT_SMOOTH, GL_TEXTURE_2D,
    GL_TEXTURE_GEN_S, GL_TEXTURE_GEN_T, GL_TEXTURE_GEN_R, GL_TEXTURE_GEN_Q]

  /** The types of the seven default attributes, in the order they are installed. */
  const DefaultAttributeTypes: seq<AttributeType> := [
    ALPHAFUNC, CULLFACE, FRONTFACE, MATERIAL, POLYGONMODE, TRANSPARENCY, DEPTH]

  /** The value each default attribute is installed with. */
  const DefaultAttributeValues: seq<ModeValue> := [OFF, ON, ON, ON, OFF, OFF, ON]

  /** The calls `setMode(m, OFF)` for each m of modes, in order. */
  function OffEdits(modes: seq<GLMode>): (r: seq<ModeEdit>)
    ensures |r| == |modes|
    ensures forall i :: 0 <= i < |r| ==> r[i] == ModeEdit(modes[i], OFF)
  {
    seq(|modes|, i requires 0 <= i < |modes| => ModeEdit(modes[i], OFF))
  }

  /** The eight `setMode(mode, OFF)` calls setGlobalDefaults begins with. */
  function DefaultOffEdits(): (r: seq<ModeEdit>)
    ensures r == OffEdits(DefaultOffModes)
  {
    [ModeEdit(GL_LIGHTING, OFF)] + [ModeEdit(GL_FOG, OFF)] + [ModeEdit(GL_POINT_SMOOTH, OFF)]
    + [ModeEdit(GL_TEXTURE_2D, OFF)]
    + [ModeEdit(GL_TEXTURE_GEN_S, OFF)] + [ModeEdit(GL_TEXTURE_GEN_T, OFF)]
    + [ModeEdit(GL_TEXTURE_GEN_R, OFF)] + [ModeEdit(GL_TEXTURE_GEN_Q, OFF)]
  }

  /** The i-th default attribute, as `new` returned it (its pointer is handles[i]). */
  function DefaultAttribute(handles: seq<nat>, i: nat): (a: Attribute)
    requires |handles| == |DefaultAttributeTypes| && i < |handles|
    ensures a.kind == DefaultAttributeTypes[i]
  {
    Attribute(DefaultAttributeTypes[i], handles[i])
  }

  /** The setMode calls the seven default attributes' mode hooks make, in installation order. */
  function DefaultHookEdits(hook: ModeHook, handles: seq<nat>): seq<ModeEdit>
    requires |handles| == |DefaultAttributeTypes|
  {
    hook(DefaultAttribute(handles, 0), OFF) + hook(DefaultAttribute(handles, 1), ON)
    + hook(DefaultAttribute(handles, 2), ON) + hook(DefaultAttribute(handles, 3), ON)
    + hook(DefaultAttribute(handles, 4), OFF) + hook(DefaultAttribute(handles, 5), OFF)
    + hook(DefaultAttribute(handles, 6), ON)
  }

  /** In the calls below, nothing after the call that switches modes[i] off names modes[i] again. */
  lemma LaterCallsSpare(modes: seq<GLMode>, others: seq<ModeEdit>, i: nat)
    requires forall j, k :: 0 <= j < k < |modes| ==> modes[j] != modes[k]
    requires i < |modes| && NotEdited(others, modes[i])
    ensures NotEdited((OffEdits(modes) + others)[i + 1..], modes[i])
  {
    var edits := OffEdits(modes) + others;
    var later := edits[i + 1..];
    forall j | 0 <= j < |later| ensures later[j].mode != modes[i] {
      assert later[j] == edits[i + 1 + j];
      if i + 1 + j < |modes| {
        assert later[j].mode == modes[i + 1 + j];
      } else {
        assert later[j] == others[i + 1 + j - |modes|];
      }
    }
  }

  /** The seven `setAttributeAndModes` calls of setGlobalDefaults, in order. */
  function DefaultInstalls(handles: seq<nat>): (r: seq<Install>)
    requires |handles| == |DefaultAttributeTypes|
    ensures |r| == |DefaultAttributeTypes|
    ensures forall i :: 0 <= i < |r| ==> r[i] == (DefaultAttribute(handles, i), DefaultAttributeValues[i])
  {
    [(DefaultAttribute(handles, 0), OFF)] + [(DefaultAttribute(handles, 1), ON)]
    + [(DefaultAttribute(handles, 2), ON)] + [(DefaultAttribute(handles, 3), ON)]
    + [(DefaultAttribute(handles, 4), OFF)] + [(DefaultAttribute(handles, 5), OFF)]
    + [(DefaultAttribute(handles, 6), ON)]
  }

  // The calls of setGlobalDefaults one at a time, as the method below makes them.

  /** The eight calls `setMode(mode, OFF)`, one after another. */
  lemma SwitchOffStepwise(s: ModeList)
    requires ModeListValid(s)
    ensures ApplyModeEdits(s, DefaultOffEdits()) ==
      var s1 := SetModeIn(SetModeIn(SetModeIn(s, GL_LIGHTING, OFF), GL_FOG, OFF), GL_POINT_SMOOTH, OFF);
      var s2 := SetModeIn(s1, GL_TEXTURE_2D, OFF);
      var s3 := SetModeIn(SetModeIn(s2, GL_TEXTURE_GEN_S, OFF), GL_TEXTURE_GEN_T, OFF);
      SetModeIn(SetModeIn(s3, GL_TEXTURE_GEN_R, OFF), GL_TEXTURE_GEN_Q, OFF)
  {
    var done := [ModeEdit(GL_LIGHTING, OFF)];
    assert done[1..] == [];
    OneMoreEdit(s, done, ModeEdit(GL_FOG, OFF));
    done := done + [ModeEdit(GL_FOG, OFF)];
    OneMoreEdit(s, done, ModeEdit(GL_POINT_SMOOTH, OFF));
    done := done + [ModeEdit(GL_POINT_SMOOTH, OFF)];
    OneMoreEdit(s, done, ModeEdit(GL_TEXTURE_2D, OFF));
    done := done + [ModeEdit(GL_TEXTURE_2D, OFF)];
    OneMoreEdit(s, done, ModeEdit(GL_TEXTURE_GEN_S, OFF));
    done := done + [ModeEdit(GL_TEXTURE_GEN_S, OFF)];
    OneMoreEdit(s, done, ModeEdit(GL_TEXTURE_GEN_T, OFF));
    done := done + [ModeEdit(GL_TEXTURE_GEN_T, OFF)];
    OneMoreEdit(s, done, ModeEdit(GL_TEXTURE_GEN_R, OFF));
    done := done + [ModeEdit(GL_TEXTURE_GEN_R, OFF)];
    OneMoreEdit(s, done, ModeEdit(GL_TEXTURE_GEN_Q, OFF));
    done := done + [ModeEdit(GL_TEXTURE_GEN_Q, OFF)];
  }

  /** The mode hooks of the seven default attributes, one after another. */
  lemma HookEditsStepwise(s: ModeList, hook: ModeHook, handles: seq<nat>)
    requires ModeListValid(s) && |handles| == |DefaultAttributeTypes|
    ensures ApplyModeEdits(s, DefaultHookEdits(hook, handles)) ==
      var s1 := ApplyModeEdits(s, hook(DefaultAttribute(handles, 0), OFF));
      var s2 := ApplyModeEdits(s1, hook(DefaultAttribute(handles, 1), ON));
      var s3 := ApplyModeEdits(s2, hook(DefaultAttribute(handles, 2), ON));
      var s4 := ApplyModeEdits(s3, hook(DefaultAttribute(handles, 3), ON));
      var s5 := ApplyModeEdits(s4, hook(DefaultAttribute(handles, 4), OFF));
      var s6 := ApplyModeEdits(s5, hook(DefaultAttribute(handles, 5), OFF));
      ApplyModeEdits(s6, hook(DefaultAttribute(handles, 6), ON))
  {
    var done := hook(DefaultAttribute(handles, 0), OFF);
    ApplyModeEditsAppend(s, done, hook(DefaultAttribute(handles, 1), ON));
    done := done + hook(DefaultAttribute(handles, 1), ON);
    ApplyModeEditsAppend(s, done, hook(DefaultAttribute(handles, 2), ON));
    done := done + hook(DefaultAttribute(handles, 2), ON);
    ApplyModeEditsAppend(s, done, hook(DefaultAttribute(handles, 3), ON));
    done := done + hook(DefaultAttribute(handles, 3), ON);
    ApplyModeEditsAppend(s, done, hook(DefaultAttribute(handles, 4), OFF));
    done := done + hook(DefaultAttribute(handles, 4), OFF);
    ApplyModeEditsAppend(s, done, hook(DefaultAttribute(handles, 5), OFF));
    done := done + hook(DefaultAttribute(handles, 5), OFF);
    ApplyModeEditsAppend(s, done, hook(DefaultAttribute(handles, 6), ON));
    done := done + hook(DefaultAttribute(handles, 6), ON);
  }

  /** The seven attribute stores, one after another. */
  lemma InstallsStepwise(s: AttributeList, handles: seq<nat>)
    requires AttributeListValid(s) && |handles| == |DefaultAttributeTypes|
    ensures StoreAttributes(s, DefaultInstalls(handles)) ==
      var s1 := StoreAttribute(s, DefaultAttribute(handles, 0), OFF);
      var s2 := StoreAttribute(s1, DefaultAttribute(handles, 1), ON);
      var s3 := StoreAttribute(s2, DefaultAttribute(handles, 2), ON);
      var s4 := StoreAttribute(s3, DefaultAttribute(handles, 3), ON);
      var s5 := StoreAttribute(s4, DefaultAttribute(handles, 4), OFF);
      var s6 := StoreAttribute(s5, DefaultAttribute(handles, 5), OFF);
      StoreAttribute(s6, DefaultAttribute(handles, 6), ON)
  {
    var done := [(DefaultAttribute(handles, 0), OFF)];
    assert done[1..] == [];
    OneMoreInstall(s, done, (DefaultAttribute(handles, 1), ON));
    done := done + [(DefaultAttribute(handles, 1), ON)];
    OneMoreInstall(s, done, (DefaultAttribute(handles, 2), ON));
    done := done + [(DefaultAttribute(handles, 2), ON)];
    OneMoreInstall(s, done, (DefaultAttribute(handles, 3), ON));
    done := done + [(DefaultAttribute(handles, 3), ON)];
    OneMoreInstall(s, done, (DefaultAttribute(handles, 4), OFF));
    done := done + [(DefaultAttribute(handles, 4), OFF)];
    OneMoreInstall(s, done, (DefaultAttribute(handles, 5), OFF));
    done := done + [(DefaultAttribute(handles, 5), OFF)];
    OneMoreInstall(s, done, (DefaultAttribute(handles, 6), ON));
    done := done + [(DefaultAttribute(handles, 6), ON)];
  }

  /** The seven default attribute types are distinct. */
  lemma DefaultTypesDistinct()
    ensures forall j, k :: 0 <= j < k < |DefaultAttributeTypes| ==> DefaultAttributeTypes[j] != DefaultAttributeTypes[k]
  {
  }

  /** After setGlobalDefaults each default type holds its new default attribute, with no override flag. */
  lemma DefaultAttributesInstalled(s: AttributeList, handles: seq<nat>, i: nat)
    requires AttributeListValid(s)
    requires |handles| == |DefaultAttributeTypes| && i < |DefaultAttributeTypes|
    ensures Find(StoreAttributes(s, DefaultInstalls(handles)), DefaultAttributeTypes[i])
         == Some(AttributePair(DefaultAttribute(handles, i), OFF))
  {
    var installs := DefaultInstalls(handles);
    var later := installs[i + 1..];
    DefaultTypesDistinct();
    forall j | 0 <= j < |later| ensures later[j].0.kind != DefaultAttributeTypes[i] {
      assert later[j] == installs[i + 1 + j];
    }
    LastInstallWins(s, installs, i);
    PlainValuesCarryNoFlags();
    assert DefaultAttributeValues[i] in {OFF, ON};
  }

  /** setGlobalDefaults leaves the entries of every other attribute type as they were. */
  lemma OtherAttributesKept(s: AttributeList, handles: seq<nat>, t: AttributeType)
    requires AttributeListValid(s)
    requires |handles| == |DefaultAttributeTypes| && t !in DefaultAttributeTypes
    ensures Find(StoreAttributes(s, DefaultInstalls(handles)), t) == Find(s, t)
  {
    var installs := DefaultInstalls(handles);
    forall j | 0 <= j < |installs| ensures installs[j].0.kind != t {
      assert installs[j].0.kind == DefaultAttributeTypes[j];
    }
  }

  /**
   Switching distinct modes off one by one and then making further calls leaves each of
   those modes OFF, unless a further call names it.
   */
  lemma OffThenOthers(s: ModeList, modes: seq<GLMode>, others: seq<ModeEdit>, i: nat)
    requires ModeListValid(s)
    requires forall j, k :: 0 <= j < k < |modes| ==> modes[j] != modes[k]
    requires i < |modes| && NotEdited(others, modes[i])
    ensures Find(ApplyModeEdits(s, OffEdits(modes) + others), modes[i]) == Some(OFF)
  {
    var edits := OffEdits(modes) + others;
    assert edits[i] == ModeEdit(modes[i], OFF);
    LaterCallsSpare(modes, others, i);
    LastEditWins(s, edits, i);
    PlainValuesCarryNoFlags();
  }

  /**
   After setGlobalDefaults, each of the eight default modes is OFF unless one of the
   default attributes' own hooks sets that mode again.
   */
  lemma GlobalDefaultModesOff(s: ModeList, hook: ModeHook, handles: seq<nat>, i: nat)
    requires ModeListValid(s)
    requires |handles| == |DefaultAttributeTypes| && i < |DefaultOffModes|
    requires NotEdited(DefaultHookEdits(hook, handles), DefaultOffModes[i])
    ensures Find(ApplyModeEdits(s, DefaultOffEdits() + DefaultHookEdits(hook, handles)), DefaultOffModes[i]) == Some(OFF)
  {
    OffThenOthers(s, DefaultOffModes, DefaultHookEdits(hook, handles), i);
  }

  // ---------------------------------------------------------------------------
  // The state set

  class StateSet {

    var modeList: ModeList
    var attributeList: AttributeList
    var renderingHint: int
    var binMode: RenderBinMode
    var binNum: int
    var binName: string
    /**
     The attributes' `setStateSetModes`, a virtual method of the attribute classes: the same
     hook serves every install and every removal of an attribute in this state set.
     */
    const hook: ModeHook

    ghost predicate Valid()
      reads this
    {
      ModeListValid(modeList) && AttributeListValid(attributeList)
    }

    /** A new state set inherits everything: empty tables, default hint, inherited render bin. */
    constructor (hook: ModeHook)
      ensures Valid()
      ensures modeList == [] && attributeList == []
      ensures renderingHint == DEFAULT_BIN
      ensures binMode == InheritRenderBinDetails && binNum == 0 && binName == ""
      ensures this.hook == hook
    {
      this.hook := hook;
      modeList := [];
      attributeList := [];
      renderingHint := DEFAULT_BIN;
      new;
      SetRendingBinToInherit();
    }

    // --- modes

    /** `getMode`: the stored value, or the INHERIT sentinel when the mode has no entry. */
    function GetMode(mode: GLMode): (r: ModeValue)
      reads this
      ensures r == INHERIT || (mode, r) in modeList
      ensures ModeListValid(modeList) ==> (r == INHERIT <==> Find(modeList, mode).None?)
    {
      match Find(modeList, mode)
      case Some(v) => v
      case None => INHERIT
    }

    method SetMode(mode: GLMode, value: ModeValue)
      requires Valid()
      modifies this`modeList
      ensures Valid()
      ensures modeList == SetModeIn(old(modeList), mode, value)
      ensures GetMode(mode) == if IsInherit(value) then INHERIT else value
      ensures forall m :: m != mode ==> GetMode(m) == old(GetMode(m))
    {
      if IsInherit(value) {
        SetModeToInherit(mode);
      } else {
        modeList := Insert(modeList, mode, value);
      }
    }

    method SetModeToInherit(mode: GLMode)
      requires Valid()
      modifies this`modeList
      ensures Valid()
      ensures modeList == Erase(old(modeList), mode)
      ensures GetMode(mode) == INHERIT
      ensures forall m :: m != mode ==> GetMode(m) == old(GetMode(m))
      ensures old(GetMode(mode)) == INHERIT ==> modeList == old(modeList)
    {
      if Find(modeList, mode).Some? {
        modeList := Erase(modeList, mode);
      }
    }

    /**
     `attribute->setStateSetModes(*this, value)`: the attribute's mode hook, which may
     only call setMode on this state set.
     */
    method RunSetStateSetModes(edits: seq<ModeEdit>)
      requires Valid()
      modifies this`modeList
      ensures Valid()
      ensures modeList == ApplyModeEdits(old(modeList), edits)
    {
      var i := 0;
      while i < |edits|
        invariant 0 <= i <= |edits|
        invariant Valid()
        invariant ApplyModeEdits(modeList, edits[i..]) == ApplyModeEdits(old(modeList), edits)
      {
        assert edits[i..][0] == edits[i] && edits[i..][1..] == edits[i + 1..];
        SetMode(edits[i].mode, edits[i].value);
        i := i + 1;
      }
    }

    // --- attributes

    /** `getAttribute` (both overloads): the attribute stored for the type, or NULL. */
    function GetAttribute(attrType: AttributeType): (r: Option<Attribute>)
      reads this
      ensures r.None? <==> forall i :: 0 <= i < |attributeList| ==> attributeList[i].0 != attrType
      ensures r.Some? ==> exists o :: (attrType, AttributePair(r.value, o)) in attributeList
      ensures AttributeListValid(attributeList) && r.Some? ==> r.value.kind == attrType
    {
      match Find(attributeList, attrType)
      case Some(p) => Some(p.attribute)
      case None => None
    }

    /** `getAttributePair`: the stored (attribute, override flags) pair for the type, or NULL. */
    function GetAttributePair(attrType: AttributeType): (r: Option<AttributePair>)
      reads this
      ensures r.None? <==> forall i :: 0 <= i < |attributeList| ==> attributeList[i].0 != attrType
      ensures r.Some? ==> (attrType, r.value) in attributeList
      ensures AttributeListValid(attributeList) && r.Some? ==> WellFormedEntry(attrType, r.value)
    {
      Find(attributeList, attrType)
    }

    method SetAttribute(attribute: Option<Attribute>, value: ModeValue)
      requires Valid()
      modifies this`modeList, this`attributeList
      ensures Valid()
      ensures attribute.None? ==> modeList == old(modeList) && attributeList == old(attributeList)
      ensures attribute.Some? && IsInherit(value) ==>
        && attributeList == Erase(old(attributeList), attribute.value.kind)
        && modeList == (match old(GetAttribute(attribute.value.kind))
                        case None => old(modeList)
                        case Some(stored) => ApplyModeEdits(old(modeList), hook(stored, INHERIT)))
      ensures attribute.Some? && !IsInherit(value) ==>
        && attributeList == StoreAttribute(old(attributeList), attribute.value, value)
        && modeList == old(modeList)
    {
      if attribute.Some? {
        if IsInherit(value) {
          SetAttributeToInherit(attribute.value.kind);
        } else {
          attributeList := StoreAttribute(attributeList, attribute.value, value);
        }
      }
    }

    method SetAttributeAndModes(attribute: Option<Attribute>, value: ModeValue)
      requires Valid()
      modifies this`modeList, this`attributeList
      ensures Valid()
      ensures attribute.None? ==> modeList == old(modeList) && attributeList == old(attributeList)
      ensures attribute.Some? ==>
        && attributeList == StoreAttribute(old(attributeList), attribute.value, value)
        && modeList == ApplyModeEdits(old(modeList), hook(attribute.value, value))
    {
      if attribute.Some? {
        attributeList := StoreAttribute(attributeList, attribute.value, value);
        RunSetStateSetModes(hook(attribute.value, value));
      }
    }

    method SetAttributeToInherit(attrType: AttributeType)
      requires Valid()
      modifies this`modeList, this`attributeList
      ensures Valid()
      ensures attributeList == Erase(old(attributeList), attrType)
      ensures GetAttribute(attrType).None? && GetAttributePair(attrType).None?
      ensures modeList == (match old(GetAttribute(attrType))
                           case None => old(modeList)
                           case Some(stored) => ApplyModeEdits(old(modeList), hook(stored, INHERIT)))
      ensures old(GetAttribute(attrType)).None? ==> attributeList == old(attributeList)
    {
      var found := Find(attributeList, attrType);
      if found.Some? {
        RunSetStateSetModes(hook(found.value.attribute, INHERIT));
        EraseKeepsAttributesValid(attributeList, attrType);
        attributeList := Erase(attributeList, attrType);
      }
    }

    // --- rendering hint and render bin

    method SetRenderingHint(hint: int)
      modifies this`renderingHint, this`binMode, this`binNum, this`binName
      ensures renderingHint == hint
      ensures hint == TRANSPARENT_BIN ==>
        binMode == UseRenderBinDetails && binNum == 1 && binName == "DepthSortedBin"
      ensures hint != TRANSPARENT_BIN ==>
        binMode == old(binMode) && binNum == old(binNum) && binName == old(binName)
    {
      renderingHint := hint;
      if renderingHint == TRANSPARENT_BIN {
        binMode := UseRenderBinDetails;
        binNum := 1;
        binName := "DepthSortedBin";
      }
    }

    method SetRenderBinDetails(num: int, name: string, mode: RenderBinMode)
      modifies this`binMode, this`binNum, this`binName
      ensures binMode == mode && binNum == num && binName == name
    {
      binMode := mode;
      binNum := num;
      binName := name;
    }

    method SetRendingBinToInherit()
      modifies this`binMode, this`binNum, this`binName
      ensures binMode == InheritRenderBinDetails && binNum == 0 && binName == ""
    {
      binMode := InheritRenderBinDetails;
      binNum := 0;
      binName := "";
    }

    // --- bulk reset

    method SetAllToInherit()
      modifies this
      ensures Valid()
      ensures modeList == [] && attributeList == []
      ensures renderingHint == DEFAULT_BIN
      ensures binMode == InheritRenderBinDetails && binNum == 0 && binName == ""
    {
      renderingHint := DEFAULT_BIN;
      SetRendingBinToInherit();
      modeList := [];
      attributeList := [];
    }

    /**
     setGlobalDefaults. `handles` are the pointers the seven `new` expressions return.
     The tables are not cleared.
     */
    method SetGlobalDefaults(handles: seq<nat>)
      requires Valid()
      requires |handles| == |DefaultAttributeTypes|
      modifies this
      ensures Valid()
      ensures renderingHint == DEFAULT_BIN
      ensures binMode == InheritRenderBinDetails && binNum == 0 && binName == ""
      ensures modeList == ApplyModeEdits(old(modeList), DefaultOffEdits() + DefaultHookEdits(hook, handles))
      ensures attributeList == StoreAttributes(old(attributeList), DefaultInstalls(handles))
    {
      renderingHint := DEFAULT_BIN;
      SetRendingBinToInherit();
      SwitchOffDefaultModes();
      assert renderingHint == DEFAULT_BIN && binMode == InheritRenderBinDetails;
      InstallDefaultAttributes(handles);
      assert renderingHint == DEFAULT_BIN && binMode == InheritRenderBinDetails;
      ApplyModeEditsAppend(old(modeList), DefaultOffEdits(), DefaultHookEdits(hook, handles));
    }

    /** The eight `setMode(mode, OFF)` calls at the start of setGlobalDefaults. */
    method SwitchOffDefaultModes()
      requires Valid()
      modifies this`modeList
      ensures Valid()
      ensures modeList == ApplyModeEdits(old(modeList), DefaultOffEdits())
    {
      SetMode(GL_LIGHTING, OFF);
      SetMode(GL_FOG, OFF);
      SetMode(GL_POINT_SMOOTH, OFF);

      SetMode(GL_TEXTURE_2D, OFF);

      SetMode(GL_TEXTURE_GEN_S, OFF);
      SetMode(GL_TEXTURE_GEN_T, OFF);
      SetMode(GL_TEXTURE_GEN_R, OFF);
      SetMode(GL_TEXTURE_GEN_Q, OFF);
      SwitchOffStepwise(old(modeList));
    }

    /** The seven `setAttributeAndModes` calls that end setGlobalDefaults. */
    method InstallDefaultAttributes(handles: seq<nat>)
      requires Valid()
      requires |handles| == |DefaultAttributeTypes|
      modifies this`modeList, this`attributeList
      ensures Valid()
      ensures modeList == ApplyModeEdits(old(modeList), DefaultHookEdits(hook, handles))
      ensures attributeList == StoreAttributes(old(attributeList), DefaultInstalls(handles))
    {
      SetAttributeAndModes(Some(DefaultAttribute(handles, 0)), OFF);
      SetAttributeAndModes(Some(DefaultAttribute(handles, 1)), ON);
      SetAttributeAndModes(Some(DefaultAttribute(handles, 2)), ON);

      // the Material is configured to track ambient and diffuse colour before it is installed
      SetAttributeAndModes(Some(DefaultAttribute(handles, 3)), ON);

      SetAttributeAndModes(Some(DefaultAttribute(handles, 4)), OFF);
      SetAttributeAndModes(Some(DefaultAttribute(handles, 5)), OFF);

      SetAttributeAndModes(Some(DefaultAttribute(handles, 6)), ON);
      HookEditsStepwise(old(modeList), hook, handles);
      InstallsStepwise(old(attributeList), handles);
    }

    // --- ordering

    /** `compare`: the merge-walk over both mode tables, then over both attribute tables. */
    method Compare(rhs: StateSet) returns (r: int)
      ensures r == CompareContents(modeList, attributeList, rhs.modeList, rhs.attributeList)
    {
      var lhsModes, rhsModes := modeList, rhs.modeList;
      var i := 0;
      while i < |lhsModes| && i < |rhsModes|
        invariant i <= |lhsModes| && i <= |rhsModes|
        invariant LexCompare(lhsModes[i..], rhsModes[i..], CompareModeEntries)
               == LexCompare(lhsModes, rhsModes, CompareModeEntries)
      {
        if lhsModes[i].0 < rhsModes[i].0 { return -1; }
        else if rhsModes[i].0 < lhsModes[i].0 { return 1; }
        if lhsModes[i].1 < rhsModes[i].1 { return -1; }
        else if rhsModes[i].1 < lhsModes[i].1 { return 1; }
        assert lhsModes[i..][1..] == lhsModes[i + 1..] && rhsModes[i..][1..] == rhsModes[i + 1..];
        i := i + 1;
      }
      if i == |lhsModes| {
        if i != |rhsModes| { return -1; }
      } else if i == |rhsModes| {
        return 1;
      }

      var lhsAttributes, rhsAttributes := attributeList, rhs.attributeList;
      var j := 0;
      while j < |lhsAttributes| && j < |rhsAttributes|
        invariant j <= |lhsAttributes| && j <= |rhsAttributes|
        invariant LexCompare(lhsAttributes[j..], rhsAttributes[j..], CompareAttributeEntries)
               == LexCompare(lhsAttributes, rhsAttributes, CompareAttributeEntries)
      {
        if lhsAttributes[j].0 < rhsAttributes[j].0 { return -1; }
        else if rhsAttributes[j].0 < lhsAttributes[j].0 { return 1; }
        if lhsAttributes[j].1.attribute.handle < rhsAttributes[j].1.attribute.handle { return -1; }
        else if rhsAttributes[j].1.attribute.handle < lhsAttributes[j].1.attribute.handle { return 1; }
        if lhsAttributes[j].1.overrideValue < rhsAttributes[j].1.overrideValue { return -1; }
        else if rhsAttributes[j].1.overrideValue < lhsAttributes[j].1.overrideValue { return 1; }
        assert lhsAttributes[j..][1..] == lhsAttributes[j + 1..];
        assert rhsAttributes[j..][1..] == rhsAttributes[j + 1..];
        j := j + 1;
      }
      if j == |lhsAttributes| {
        if j != |rhsAttributes| { return -1; }
      } else if j == |rhsAttributes| {
        return 1;
      }
      return 0;
    }
  }


}
