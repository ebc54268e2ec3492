# osg::StateSet, modelled and verified in Dafny

This project models `osg::StateSet` from OpenSceneGraph (`src/osg/StateSet.cpp`). A state
set is a sparse render-state container. It has four parts:

- a **mode table**, an ordered map from a GL mode to a mode value;
- an **attribute table**, an ordered map from an attribute type to the attribute and its
  override flags;
- a **rendering hint**;
- a **render-bin specification**: mode, number and name.

A missing entry means "inherit from the parent state". The setters insert, replace and
erase table entries in place. The getters return `INHERIT` or NULL for a missing entry.
`compare` walks both pairs of tables in lock-step and gives a total order that is used as a
sort key.

Files:

- `Wrappers.dfy`: `Option`.
- `OrderedMaps.dfy`: `std::map` with integer keys, as a strictly key-sorted association
  sequence. The sequence order is the map's iteration order. It provides `find`,
  `operator[]` assignment and `erase`.
- `Lexicographic.dfy`: the lock-step walk of two sorted sequences under an entry
  comparator, and its order properties.
- `StateAttributes.dfy`: mode values and their flags, GL modes, attribute types, the
  attribute value, the render-bin modes, and the mode hook of an attribute.
- `StateSets.dfy`: the table operations as functions, the order of `compare`, what
  `setGlobalDefaults` installs, and `class StateSet`. The class keeps the six fields of the
  C++ class and has one member per modelled member function: a function for each getter and
  a method for each setter and for `compare`.

Modelling choices:

- A mode value is an unsigned 32-bit integer. `value & INHERIT` and `value & OVERRIDE` are
  bit tests. The headers that hold the flag values are not part of this model. The
  stand-ins are OFF = 0 (no bit set) and the single bits ON = 1, OVERRIDE = 2 and INHERIT = 8.
  The bit tests divide by the OVERRIDE and INHERIT constants themselves.
- An attribute is its type plus an ordered, opaque `handle` that stands for the pointer.
  `compare` orders attributes by this pointer with `<`.
- `attribute->setStateSetModes(*this, value)` belongs to the concrete attribute classes.
  It is the constant field `hook` of a state set, fixed by the constructor. The hook gives
  the list of `setMode` calls the attribute makes for a value. Every install and every
  removal in one state set goes through the same hook, as one virtual method would.
  `RunSetStateSetModes` makes those calls through `SetMode`.
- `setGlobalDefaults` creates seven attributes with `new`. The pointers they get are the
  parameter `handles`.
- The class invariant `Valid()` says three things. The keys of each table strictly ascend,
  as a `std::map`'s do. No stored mode value has the INHERIT bit. Each attribute entry holds
  an attribute of its own type, with only the OVERRIDE bit kept. Every method keeps the
  invariant.
- `compare(x, x) == 0`, antisymmetry and both forms of transitivity hold for any tables.
  Only "0 exactly when the tables are equal" needs each attribute entry's type to equal its
  key. `Valid()` guarantees this (`ValidKindsMatchKeys`).
  `compare` itself never compares attribute types. It compares the key, the pointer and
  the flags.
- `setGlobalDefaults` is split into two helper methods of straight-line calls, in the
  source's order. `SwitchOffDefaultModes` makes the eight `setMode` calls.
  `InstallDefaultAttributes` makes the seven `setAttributeAndModes` calls.

## Model

| member | source | states |
|---|---|---|
| OrderedMaps.Find | src/osg/StateSet.cpp:136-142 | `find` gives None exactly when no entry has the key; otherwise the value is stored under the key |
| OrderedMaps.Insert | src/osg/StateSet.cpp:122 | `map[k] = v` keeps the keys strictly ascending, makes `find(k)` give v, changes no other key, and grows the map only when k was absent |
| OrderedMaps.Erase | src/osg/StateSet.cpp:130 | `erase` keeps the keys ascending, removes k, changes no other key, and changes nothing when k is absent |
| OrderedMaps.InsertCommutes | src/osg/StateSet.cpp:122 | storing two different keys gives the same map in either order |
| OrderedMaps.EraseIdempotent | src/osg/StateSet.cpp:125-132 | erasing the same key twice is erasing it once |
| Lexicographic.LexRange | src/osg/StateSet.cpp:37-50 | the lock-step walk gives only -1, 0 or 1 |
| Lexicographic.LexAntisymmetric | src/osg/StateSet.cpp:37-50 | swapping the two sides negates the result |
| Lexicographic.LexTransitive | src/osg/StateSet.cpp:37-50 | "not greater" is transitive |
| Lexicographic.LexZero | src/osg/StateSet.cpp:37-50 | the walk gives 0 exactly when the lengths are equal and the entries compare equal pairwise |
| Lexicographic.LexFirstDifference | src/osg/StateSet.cpp:37-45 | after an equal common prefix, the first entry that differs decides |
| Lexicographic.LexPrefix | src/osg/StateSet.cpp:46-50 | a strict prefix compares smaller |
| StateAttributes.OverrideBitsIsMask | src/osg/StateSet.cpp:150 | the flags kept with an attribute entry are exactly the 32-bit `value & OVERRIDE` |
| StateAttributes.IsInheritIsMask | src/osg/StateSet.cpp:121 | the INHERIT test on a mode value is exactly the 32-bit `value & INHERIT` being set |
| StateSets.ValidKindsMatchKeys | src/osg/StateSet.cpp:150 | in a valid attribute table, every entry holds an attribute whose type is its key |
| StateSets.SetModeIn | src/osg/StateSet.cpp:119-132 | setMode with INHERIT removes the mode, any other value is stored; other modes are unchanged; no stored value has INHERIT |
| StateSets.ApplyModeEdits | src/osg/StateSet.cpp:159 | a run of setMode calls keeps the mode table valid and leaves every mode it does not name as it was |
| StateSets.LastEditWins | src/osg/StateSet.cpp:119-123 | a mode's entry after a run of setMode calls is decided by the last call that names it |
| StateSets.StoreAttribute | src/osg/StateSet.cpp:150 | the entry at the attribute's type becomes (attribute, value & OVERRIDE), replacing any earlier one; other types are unchanged |
| StateSets.EraseKeepsAttributesValid | src/osg/StateSet.cpp:169 | erasing an attribute entry keeps the table valid |
| StateSets.StoreAttributes | src/osg/StateSet.cpp:94-105 | a run of stores keeps the table valid and leaves every type it does not name as it was |
| StateSets.LastInstallWins | src/osg/StateSet.cpp:145-152 | after a run of stores, the last store of a type decides that type's entry |
| StateSets.ModeEntryOrder | src/osg/StateSet.cpp:39-42 | mode entries are ordered by mode, then value; the order is total, and two entries tie only when they are equal |
| StateSets.AttributeEntryOrder | src/osg/StateSet.cpp:59-64 | attribute entries are ordered by type, then pointer, then flags; the order is a total preorder, and a tie means these three are equal |
| StateSets.CompareContentsRange | src/osg/StateSet.cpp:32-75 | compare returns only -1, 0 or 1 |
| StateSets.CompareContentsReflexive | src/osg/StateSet.cpp:32-75 | a state set compares equal to itself |
| StateSets.CompareContentsAntisymmetric | src/osg/StateSet.cpp:32-75 | `x.compare(y) == -y.compare(x)` |
| StateSets.CompareContentsTransitive | src/osg/StateSet.cpp:32-75 | "not greater" is transitive across three state sets |
| StateSets.CompareContentsStrictTransitive | src/osg/StateSet.cpp:32-75 | "less" is transitive for any tables, so compare is a strict weak order |
| StateSets.ModeTablesZero | src/osg/StateSet.cpp:35-50 | the mode walk gives 0 exactly when the two mode tables are equal |
| StateSets.AttributeTablesZero | src/osg/StateSet.cpp:55-72 | the attribute walk gives 0 exactly when two well-formed attribute tables are equal |
| StateSets.CompareContentsZero | src/osg/StateSet.cpp:32-75 | compare returns 0 exactly when both mode tables and both attribute tables are equal |
| StateSets.ModesDecideFirst | src/osg/StateSet.cpp:46-52 | when the mode tables differ, their comparison is the result, whatever the attributes |
| StateSets.ShorterModeTableFirst | src/osg/StateSet.cpp:46-49 | a mode table that is a strict prefix of the other sorts first |
| StateSets.ShorterAttributeTableFirst | src/osg/StateSet.cpp:68-70 | with equal modes, an attribute table that is a strict prefix of the other sorts first |
| StateSets.ModeKeyBeforeValue | src/osg/StateSet.cpp:37-42 | for any two mode tables that agree up to some position, a lower mode at that position makes the whole state set sort first, whatever the values and attributes |
| StateSets.HandleBeforeOverride | src/osg/StateSet.cpp:57-64 | with equal mode tables, for any two attribute tables that agree up to some position, the same type with a lower attribute pointer at that position sorts first, whatever the flags |
| StateSets.ModeValueBreaksTie | src/osg/StateSet.cpp:37-42 | for any two mode tables that agree up to some position, the same mode with a lower value at that position makes the whole state set sort first, whatever the attributes |
| StateSets.AttributeTypeFirst | src/osg/StateSet.cpp:57-60 | with equal mode tables, for any two attribute tables that agree up to some position, a lower attribute type at that position sorts first |
| StateSets.FlagsBreakTie | src/osg/StateSet.cpp:57-64 | with equal mode tables, for any two attribute tables that agree up to some position, the same type and pointer with lower override flags at that position sorts first |
| StateSets.OverrideSortsAfter | src/osg/StateSet.cpp:41-42 | for the same mode, ON sorts before ON with OVERRIDE |
| StateSets.DefaultTypesDistinct | src/osg/StateSet.cpp:94-105 | the seven default attributes have seven different types |
| StateSets.DefaultAttributesInstalled | src/osg/StateSet.cpp:94-105 | after setGlobalDefaults, each default type holds its new default attribute with no override flag |
| StateSets.OtherAttributesKept | src/osg/StateSet.cpp:94-105 | setGlobalDefaults leaves every other attribute type as it was; the table is not cleared |
| StateSets.OffThenOthers | src/osg/StateSet.cpp:83-105 | modes switched off one by one stay OFF through later calls that do not name them |
| StateSets.GlobalDefaultModesOff | src/osg/StateSet.cpp:77-106 | after setGlobalDefaults, each of the eight modes is OFF unless a default attribute's own hook sets it again |
| StateSets.StateSet.constructor | src/osg/StateSet.cpp:17-22 | a new state set has empty tables, the default hint and an inherited render bin; the attributes' hook is the one given |
| StateSets.StateSet.GetMode | src/osg/StateSet.cpp:134-143 | getMode gives the stored value, or INHERIT exactly when the mode has no entry |
| StateSets.StateSet.SetMode | src/osg/StateSet.cpp:119-123 | the mode table becomes `SetModeIn` of the old one; getMode then gives the value, or INHERIT for an INHERIT value; every other getMode is unchanged |
| StateSets.StateSet.SetModeToInherit | src/osg/StateSet.cpp:125-132 | erases only the given mode, and changes nothing when it is absent |
| StateSets.StateSet.RunSetStateSetModes | src/osg/StateSet.cpp:159 | an attribute's mode hook makes its setMode calls, in order |
| StateSets.StateSet.GetAttribute | src/osg/StateSet.cpp:173-193 | the attribute stored under the type (it is in an entry of the table, and is of the asked type), or NULL exactly when the type has no entry |
| StateSets.StateSet.GetAttributePair | src/osg/StateSet.cpp:195-204 | the stored (attribute, flags) pair, or NULL exactly when the type has no entry |
| StateSets.StateSet.SetAttribute | src/osg/StateSet.cpp:145-152 | NULL changes nothing; an INHERIT value acts as setAttributeToInherit; any other value stores (attribute, value & OVERRIDE) and calls no hook |
| StateSets.StateSet.SetAttributeAndModes | src/osg/StateSet.cpp:154-161 | NULL changes nothing; otherwise stores (attribute, value & OVERRIDE) with no INHERIT check, then runs the hook with the original value |
| StateSets.StateSet.SetAttributeToInherit | src/osg/StateSet.cpp:163-171 | if an entry exists, runs its attribute's hook with INHERIT and erases the entry; otherwise changes nothing; afterwards both getters give NULL |
| StateSets.StateSet.SetRenderingHint | src/osg/StateSet.cpp:216-227 | stores the hint; TRANSPARENT_BIN also sets the bin to (use details, 1, "DepthSortedBin"); any other hint leaves the bin alone |
| StateSets.StateSet.SetRenderBinDetails | src/osg/StateSet.cpp:229-234 | sets the three bin fields as given and does not touch the hint |
| StateSets.StateSet.SetRendingBinToInherit | src/osg/StateSet.cpp:236-241 | the bin becomes (inherit details, 0, "") |
| StateSets.StateSet.SetAllToInherit | src/osg/StateSet.cpp:109-117 | empties both tables, resets the hint to DEFAULT_BIN, and sets the bin to inherit: the state of a new state set |
| StateSets.StateSet.SetGlobalDefaults | src/osg/StateSet.cpp:77-106 | resets hint and bin, then makes the eight setMode(OFF) calls and the seven attribute installs in order, on top of the existing tables |
| StateSets.StateSet.SwitchOffDefaultModes | src/osg/StateSet.cpp:83-92 | the eight `setMode(mode, OFF)` calls |
| StateSets.StateSet.InstallDefaultAttributes | src/osg/StateSet.cpp:94-105 | the seven `setAttributeAndModes` calls, each storing its attribute and running its hook |
| StateSets.StateSet.Compare | src/osg/StateSet.cpp:32-75 | the two lock-step loops with early returns compute `CompareContents` of the two tables; hint and bin take no part |

## Left out

- `compile` (src/osg/StateSet.cpp:206-214) only forwards to each attribute's own `compile(State&)`, which is a GL call outside this model.
- The concrete attribute classes (AlphaFunc, CullFace, FrontFace, Material, PolygonMode, Transparency, Depth) and their `setStateSetModes` bodies are not part of this model. The hook is the constructor's parameter: an arbitrary function from the attribute and the value to a list of setMode calls. A hook in this model cannot read the state set or change its attribute table.
- `Material::setColorMode` (line 99) configures the material object only. It does not change the state set.
- `ref_ptr` reference counting and the destructor (lines 25-30) are memory management. An attribute is an opaque handle here.
- The numeric values of the flags, attribute types, rendering hints and render-bin modes live in headers that are not part of this model. The values used are stand-ins. OFF is taken to be 0, and ON, OVERRIDE and INHERIT the single bits 0, 1 and 3 (the values 1, 2 and 8). `IsInheritIsMask` states the INHERIT test as bit 3 itself. The seven default attribute types are taken to be 0..6 in installation order. The rendering hints and render-bin modes are distinct values, and nothing proved depends on them beyond that. The GL mode values are OpenGL's.
- Pointer allocation by `new` in setGlobalDefaults is the parameter `handles`. The model does not require the seven handles to be fresh or distinct.
- StateSets.CompareContentsZero and StateSets.AttributeTablesZero: they require every attribute entry's type to equal its key, which every valid table satisfies. Without that, two entries with equal key, pointer and flags but different attribute types would tie. With real pointers this cannot happen.
