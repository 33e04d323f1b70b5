/** Flag words as JSON objects with boolean fields, through a table of bit masks and field names.

    A flag word is the set of its one bits: AND, OR and AND-NOT are intersection, union and difference. */
module JsonFlags {

  type Flags = set<nat>

  datatype Json = True | False | Other

  type Object = map<string, Json>

  datatype Entry = Entry(bits: Flags, name: string)

  predicate IsTrue(o: Object, name: string) { name in o && o[name] == True }

  predicate IsBoolean(o: Object, name: string) { name in o && o[name] != Other }

  function Boolean(b: bool): Json { if b then True else False }

  /** The bits some entry of the table names. */
  function Mask(table: seq<Entry>): Flags { set e, p | e in table && p in e.bits :: p }

  /** The bits of the last entry with a name; none if there is no such entry. */
  function NamedBits(table: seq<Entry>, name: string): Flags {
    var n := |table|;
    if n == 0 then {} else if table[n - 1].name == name then table[n - 1].bits else NamedBits(table[..n - 1], name)
  }

  // ---------- The loops ----------

  method BooleanObject(flags: Flags, table: seq<Entry>) returns (json: Object)
    ensures json == ObjectOf(flags, table)
  {
    json := map[];
    for i := 0 to |table|
      invariant forall name :: name in json <==> exists k :: 0 <= k < i && table[k].name == name
      invariant forall name :: name in json ==> json[name] == Boolean(flags * NamedBits(table[..i], name) != {})
    {
      assert table[..i + 1][..i] == table[..i];
      json := json[table[i].name := Boolean(flags * table[i].bits != {})];
    }
    assert table[..|table|] == table;
  }

  /** The object of a flag word: each name of the table, true iff the word meets the last mask of that name. */
  ghost function ObjectOf(flags: Flags, table: seq<Entry>): Object {
    map e | e in table :: e.name := Boolean(flags * NamedBits(table, e.name) != {})
  }

  method ObjectGetFlags(json: Object, table: seq<Entry>) returns (flags: Flags)
    ensures flags == FlagsOf(json, table)
  {
    flags := {};
    for i := 0 to |table|
      invariant flags == FlagsOf(json, table[..i])
    {
      assert table[..i + 1] == table[..i] + [table[i]];
      if IsTrue(json, table[i].name) {
        flags := flags + table[i].bits;
      }
    }
    assert table[..|table|] == table;
  }

  /** The bits named by true fields. */
  ghost function FlagsOf(json: Object, table: seq<Entry>): Flags {
    set e, p | e in table && p in e.bits && IsTrue(json, e.name) :: p
  }

  /** Entry `i` is the last one that has bit `p` and whose field is present. */
  ghost predicate Decides(json: Object, table: seq<Entry>, p: nat, i: nat) {
    && i < |table| && p in table[i].bits && table[i].name in json
    && forall k :: i < k < |table| && p in table[k].bits ==> table[k].name !in json
  }

  /** A bit takes the value of the last present field that names it; a bit no present field names stays. */
  method ObjectUpdateFlags(json: Object, currentFlags: Flags, table: seq<Entry>) returns (flags: Flags)
    ensures flags == Patched(json, currentFlags, table)
    ensures forall p: nat, i: nat :: Decides(json, table, p, i) ==> (p in flags <==> json[table[i].name] == True)
    ensures forall p: nat :: p !in PresentMask(json, table) ==> (p in flags <==> p in currentFlags)
  {
    flags := currentFlags;
    for i := 0 to |table|
      invariant flags == Patched(json, currentFlags, table[..i])
    {
      assert table[..i + 1][..i] == table[..i];
      if table[i].name in json {
        if json[table[i].name] == True {
          flags := flags + table[i].bits;
        } else {
          flags := flags - table[i].bits;
        }
      }
    }
    assert table[..|table|] == table;
    forall p: nat, i: nat | Decides(json, table, p, i) ensures p in flags <==> json[table[i].name] == True {
      PatchedDecides(json, currentFlags, table, p, i);
    }
    forall p: nat | p !in PresentMask(json, table) ensures p in flags <==> p in currentFlags {
      PatchedAbsent(json, currentFlags, table, p);
    }
  }

  lemma {:induction false} PatchedDecides(json: Object, g: Flags, table: seq<Entry>, p: nat, i: nat)
    requires Decides(json, table, p, i)
    ensures p in Patched(json, g, table) <==> json[table[i].name] == True
    decreases |table|
  {
    var n := |table|;
    if i < n - 1 {
      PatchedDecides(json, g, table[..n - 1], p, i);
    }
  }

  /** The flags after the entries one by one. */
  function Patched(json: Object, g: Flags, table: seq<Entry>): Flags {
    var n := |table|;
    if n == 0 then g
    else
      var h := Patched(json, g, table[..n - 1]);
      var e := table[n - 1];
      if e.name !in json then h else if json[e.name] == True then h + e.bits else h - e.bits
  }

  /** The strict variant used by modify handlers: the named fields are collected into a set of bits and a
      mask, and applied to the flags at the end; a field that is not boolean rejects the whole update. */
  method CollectFlags(json: Object, currentFlags: Flags, table: seq<Entry>) returns (ok: bool, flags: Flags)
    ensures ok <==> Strict(json, table)
    ensures flags == if ok then Collected(json, currentFlags, table) else currentFlags
  {
    flags := currentFlags;
    var setFlags, mask: Flags := {}, {};
    for i := 0 to |table|
      invariant Strict(json, table[..i])
      invariant setFlags == Low(FlagsOf(json, table[..i])) && mask == Low(PresentMask(json, table[..i]))
      invariant flags == currentFlags
    {
      assert table[..i + 1] == table[..i] + [table[i]];
      var updated;
      updated, setFlags, mask := ObjectUpdateFlag(json, table[i].name, table[i].bits, setFlags, mask);
      if !updated {
        return false, flags;
      }
    }
    assert table[..|table|] == table;
    if mask != {} {
      flags := flags - mask;
      flags := flags + setFlags * mask;
    }
    return true, flags;
  }

  /** The bits that a 32-bit parameter or field has room for. */
  function Low(bits: Flags): Flags { set p | p in bits && p < 32 }

  /** `bits` is narrowed to the 32-bit parameter `bit`. */
  method ObjectUpdateFlag(json: Object, name: string, bits: Flags, setFlags: Flags, mask: Flags)
    returns (ok: bool, setFlags': Flags, mask': Flags)
    ensures ok <==> (name in json ==> IsBoolean(json, name))
    ensures setFlags' == if IsTrue(json, name) then setFlags + Low(bits) else setFlags
    ensures mask' == if IsBoolean(json, name) then mask + Low(bits) else mask
  {
    var bit := Low(bits);
    setFlags', mask' := setFlags, mask;
    if name !in json {
      return true, setFlags', mask';
    }
    if json[name] == Other {
      return false, setFlags', mask';
    }
    mask' := mask' + bit;
    if json[name] == True {
      setFlags' := setFlags' + bit;
    }
    return true, setFlags', mask';
  }

  ghost predicate Strict(json: Object, table: seq<Entry>) {
    forall e :: e in table && e.name in json ==> IsBoolean(json, e.name)
  }

  ghost function PresentMask(json: Object, table: seq<Entry>): Flags {
    set e, p | e in table && p in e.bits && e.name in json :: p
  }

  ghost function Collected(json: Object, g: Flags, table: seq<Entry>): Flags {
    g - Low(PresentMask(json, table)) + Low(FlagsOf(json, table))
  }

  // ---------- There and back ----------

  lemma {:induction false} LastOfName(table: seq<Entry>, name: string) returns (last: Entry)
    requires exists e :: e in table && e.name == name
    ensures last in table && last.name == name && last.bits == NamedBits(table, name)
    decreases |table|
  {
    var n := |table|;
    if table[n - 1].name == name {
      last := table[n - 1];
    } else {
      assert forall e :: e in table && e.name == name ==> e in table[..n - 1];
      last := LastOfName(table[..n - 1], name);
    }
  }

  /** Flags to JSON and back keeps exactly the bits of the table. */
  ghost predicate RoundTrips(table: seq<Entry>, f: Flags) { FlagsOf(ObjectOf(f, table), table) == f * Mask(table) }

  /** A name whose last entry has bits has one, and its other entries no other; and every bit of the table
      belongs to the last entry of some name. */
  ghost predicate Faithful(table: seq<Entry>) {
    && (forall e, p: nat, q: nat :: e in table && p in NamedBits(table, e.name) && (q in e.bits || q in NamedBits(table, e.name))
          ==> p == q)
    && (forall p: nat :: p in Mask(table) ==> exists e :: e in table && p in NamedBits(table, e.name))
  }

  lemma FaithfulRoundTrips(table: seq<Entry>, f: Flags)
    requires Faithful(table)
    ensures RoundTrips(table, f)
  {
    var o := ObjectOf(f, table);
    forall p: nat | p in FlagsOf(o, table) ensures p in f * Mask(table) {
      var e :| e in table && p in e.bits && IsTrue(o, e.name);
      var q :| q in f * NamedBits(table, e.name);
      assert p == q;
    }
    forall p: nat | p in f * Mask(table) ensures p in FlagsOf(o, table) {
      var e :| e in table && p in NamedBits(table, e.name);
      var last := LastOfName(table, e.name);
      assert p in f * NamedBits(table, last.name);
    }
  }

  lemma OneBitRoundTrip(table: seq<Entry>, e: Entry, p: nat, q: nat)
    requires RoundTrips(table, {p})
    requires e in table && p in NamedBits(table, e.name) && (q in e.bits || q in NamedBits(table, e.name))
    ensures p == q
  {
    var o := ObjectOf({p}, table);
    var last := LastOfName(table, e.name);
    assert p in {p} * NamedBits(table, e.name);
    assert IsTrue(o, e.name) && IsTrue(o, last.name);
    assert q in FlagsOf(o, table);
  }

  lemma MaskBitIsLast(table: seq<Entry>, p: nat) returns (e: Entry)
    requires RoundTrips(table, {p}) && p in Mask(table)
    ensures e in table && p in NamedBits(table, e.name)
  {
    var o := ObjectOf({p}, table);
    assert p in FlagsOf(o, table);
    e :| e in table && p in e.bits && IsTrue(o, e.name);
    var q :| q in {p} * NamedBits(table, e.name);
  }

  lemma RoundTripsFaithful(table: seq<Entry>)
    requires forall f :: RoundTrips(table, f)
    ensures Faithful(table)
  {
    forall e, p: nat, q: nat | e in table && p in NamedBits(table, e.name) && (q in e.bits || q in NamedBits(table, e.name))
      ensures p == q
    {
      OneBitRoundTrip(table, e, p, q);
    }
    forall p: nat | p in Mask(table) ensures exists e :: e in table && p in NamedBits(table, e.name) {
      var e := MaskBitIsLast(table, p);
    }
  }

  /** The tables for which every flag word survives the round trip. */
  lemma RoundTripIff(table: seq<Entry>)
    ensures (forall f :: RoundTrips(table, f)) <==> Faithful(table)
  {
    if Faithful(table) {
      forall f ensures RoundTrips(table, f) {
        FaithfulRoundTrips(table, f);
      }
    } else if forall f :: RoundTrips(table, f) {
      RoundTripsFaithful(table);
      assert false;
    }
  }

  // ---------- Patching ----------

  /** The name of the last entry with a bit. */
  function Owner(table: seq<Entry>, p: nat): string
    requires p in Mask(table)
  {
    var n := |table|;
    if p in table[n - 1].bits then table[n - 1].name
    else
      assert forall e :: e in table && p in e.bits ==> e in table[..n - 1];
      Owner(table[..n - 1], p)
  }

  lemma {:induction false} OwnerIsNamed(table: seq<Entry>, p: nat)
    requires p in Mask(table)
    ensures exists e :: e in table && e.name == Owner(table, p)
    decreases |table|
  {
    var n := |table|;
    if p in table[n - 1].bits {
      assert table[n - 1] in table;
    } else {
      assert forall e :: e in table && p in e.bits ==> e in table[..n - 1];
      OwnerIsNamed(table[..n - 1], p);
      var e :| e in table[..n - 1] && e.name == Owner(table[..n - 1], p);
      assert e in table;
    }
  }

  /** A bit whose owner is present takes its value; a bit outside the table never changes. */
  lemma {:induction false} PatchedBit(json: Object, g: Flags, table: seq<Entry>, p: nat)
    ensures p in Mask(table) && Owner(table, p) in json ==> (p in Patched(json, g, table) <==> IsTrue(json, Owner(table, p)))
    ensures p !in Mask(table) ==> (p in Patched(json, g, table) <==> p in g)
    decreases |table|
  {
    var n := |table|;
    if n > 0 {
      assert table == table[..n - 1] + [table[n - 1]];
      PatchedBit(json, g, table[..n - 1], p);
    }
  }

  ghost predicate Patches(table: seq<Entry>, f: Flags, g: Flags) {
    Patched(ObjectOf(f, table), g, table) == g - Mask(table) + f * Mask(table)
  }

  /** Each bit is the only one of the last entry with its owner's name. */
  ghost predicate Decided(table: seq<Entry>) {
    forall p: nat :: p in Mask(table) ==> NamedBits(table, Owner(table, p)) == {p}
  }

  lemma ObjectOfOwner(table: seq<Entry>, f: Flags, p: nat)
    requires p in Mask(table)
    ensures var name := Owner(table, p);
            name in ObjectOf(f, table) && (IsTrue(ObjectOf(f, table), name) <==> f * NamedBits(table, name) != {})
  {
    OwnerIsNamed(table, p);
  }

  lemma DecidedPatches(table: seq<Entry>, f: Flags, g: Flags)
    requires Decided(table)
    ensures Patches(table, f, g)
  {
    var o := ObjectOf(f, table);
    forall p ensures p in Patched(o, g, table) <==> p in g - Mask(table) + f * Mask(table) {
      PatchedBit(o, g, table, p);
      if p in Mask(table) {
        ObjectOfOwner(table, f, p);
        assert p in f ==> p in f * {p};
      }
    }
  }

  /** If patching transfers each one-bit word and clears nothing set, the owner of a bit has just that bit. */
  lemma PatchesOneBit(table: seq<Entry>, p: nat)
    requires p in Mask(table) && forall f :: Patches(table, f, {})
    ensures NamedBits(table, Owner(table, p)) == {p}
  {
    var bits := NamedBits(table, Owner(table, p));
    forall q ensures q in bits <==> q == p {
      assert Patches(table, {q}, {});
      ObjectOfOwner(table, {q}, p);
      PatchedBit(ObjectOf({q}, table), {}, table, p);
      assert {q} * bits != {} <==> q in bits by {
        if q in bits {
          assert q in {q} * bits;
        }
      }
      assert p in {q} * Mask(table) <==> p == q;
    }
  }

  /** The tables for which patching any g with the JSON of any f replaces exactly the bits of the table. */
  lemma PatchIff(table: seq<Entry>)
    ensures (forall f, g :: Patches(table, f, g)) <==> Decided(table)
  {
    if Decided(table) {
      forall f, g ensures Patches(table, f, g) {
        DecidedPatches(table, f, g);
      }
    }
    if forall f, g :: Patches(table, f, g) {
      forall p: nat | p in Mask(table) ensures NamedBits(table, Owner(table, p)) == {p} {
        PatchesOneBit(table, p);
      }
    }
  }

  ghost predicate OneBit(bits: Flags) { exists p: nat :: bits == {p} }

  /** Tables as they are meant to be: names differ, and each entry has one bit. */
  ghost predicate Proper(table: seq<Entry>) {
    && (forall i, j :: 0 <= i < j < |table| ==> table[i].name != table[j].name)
    && (forall i :: 0 <= i < |table| ==> OneBit(table[i].bits))
  }

  lemma {:induction false} ProperNamedBits(table: seq<Entry>, i: nat)
    requires Proper(table) && i < |table|
    ensures NamedBits(table, table[i].name) == table[i].bits
    decreases |table|
  {
    var n := |table|;
    if i < n - 1 {
      ProperNamedBits(table[..n - 1], i);
    }
  }

  lemma {:induction false} OwnerHasBit(table: seq<Entry>, p: nat) returns (i: nat)
    requires p in Mask(table)
    ensures i < |table| && p in table[i].bits && Owner(table, p) == table[i].name
    decreases |table|
  {
    var n := |table|;
    if p in table[n - 1].bits {
      i := n - 1;
    } else {
      assert forall e :: e in table && p in e.bits ==> e in table[..n - 1];
      i := OwnerHasBit(table[..n - 1], p);
    }
  }

  /** A proper table loses nothing and patches exactly its own bits. */
  lemma ProperTables(table: seq<Entry>, f: Flags, g: Flags)
    requires Proper(table)
    ensures RoundTrips(table, f) && Patches(table, f, g)
  {
    forall p: nat | p in Mask(table)
      ensures NamedBits(table, Owner(table, p)) == {p} && exists e :: e in table && p in NamedBits(table, e.name)
    {
      var i := OwnerHasBit(table, p);
      ProperNamedBits(table, i);
      assert table[i] in table;
    }
    forall e | e in table ensures NamedBits(table, e.name) == e.bits && OneBit(e.bits) {
      var i :| 0 <= i < |table| && table[i] == e;
      ProperNamedBits(table, i);
    }
    FaithfulRoundTrips(table, f);
    DecidedPatches(table, f, g);
  }

  // ---------- Collecting and applying ----------

  /** Entries that share a bit share their name. */
  ghost predicate Unshared(table: seq<Entry>) {
    forall d, e, p: nat :: d in table && e in table && p in d.bits && p in e.bits ==> d.name == e.name
  }

  lemma {:induction false} PatchedAbsent(json: Object, g: Flags, table: seq<Entry>, p: nat)
    requires forall e :: e in table && p in e.bits ==> e.name !in json
    ensures p in Patched(json, g, table) <==> p in g
    decreases |table|
  {
    var n := |table|;
    if n > 0 {
      assert forall e :: e in table[..n - 1] ==> e in table;
      PatchedAbsent(json, g, table[..n - 1], p);
      assert table[n - 1] in table;
    }
  }

  /** All bits of the table fit into 32 bits. */
  ghost predicate Narrow(table: seq<Entry>) { forall p: nat :: p in Mask(table) ==> p < 32 }

  lemma UnsharedCollects(json: Object, g: Flags, table: seq<Entry>)
    requires Unshared(table) && Narrow(table)
    ensures Collected(json, g, table) == Patched(json, g, table)
  {
    forall p: nat ensures p in Collected(json, g, table) <==> p in Patched(json, g, table) {
      PatchedBit(json, g, table, p);
      if p in Mask(table) {
        var i := OwnerHasBit(table, p);
        assert table[i] in table;
        if table[i].name !in json {
          PatchedAbsent(json, g, table, p);
        }
      }
    }
  }

  /** An earlier entry sets a bit and its owner, under another name, clears it: patching clears the bit,
      collecting sets it. */
  lemma SharedBitDiffers(table: seq<Entry>, e: Entry, p: nat)
    requires e in table && p in e.bits && e.name != Owner(table, p) && p < 32
    ensures var json: Object := map[e.name := True, Owner(table, p) := False];
            Strict(json, table) && Collected(json, {}, table) != Patched(json, {}, table)
  {
    var json: Object := map[e.name := True, Owner(table, p) := False];
    PatchedBit(json, {}, table, p);
    assert IsTrue(json, e.name);
    assert p in Collected(json, {}, table);
  }

  /** A bit beyond the 32nd is set by patching, and never by collecting. */
  lemma WideBitDiffers(table: seq<Entry>, p: nat)
    requires p in Mask(table) && p >= 32
    ensures var json: Object := map[Owner(table, p) := True];
            Strict(json, table) && Collected(json, {}, table) != Patched(json, {}, table)
  {
    var json: Object := map[Owner(table, p) := True];
    PatchedBit(json, {}, table, p);
    assert IsTrue(json, Owner(table, p));
    assert p !in Collected(json, {}, table);
  }

  /** Collecting and applying equals patching, for every object with boolean fields and every 32-bit flag
      field, exactly when no two names of the table share a bit and all its bits fit into 32. */
  lemma CollectIff(table: seq<Entry>)
    ensures (forall json, g :: Strict(json, table) && g == Low(g) ==>
               Collected(json, g, table) == Patched(json, g, table))
              <==> Unshared(table) && Narrow(table)
  {
    assert Low({}) == {};
    if !Narrow(table) {
      var p: nat :| p in Mask(table) && p >= 32;
      WideBitDiffers(table, p);
    } else if !Unshared(table) {
      var d, e, p: nat :| d in table && e in table && p in d.bits && p in e.bits && d.name != e.name;
      SharedBitDiffers(table, if d.name == Owner(table, p) then e else d, p);
    } else {
      forall json, g ensures Collected(json, g, table) == Patched(json, g, table) {
        UnsharedCollects(json, g, table);
      }
    }
  }

  // ---------- Tables that fail ----------

  /** An entry of two bits: one of them comes back as both. */
  lemma TwoBitsDoNotRoundTrip(name: string)
    ensures !RoundTrips([Entry({0, 1}, name)], {0}) && !Patches([Entry({0, 1}, name)], {0}, {})
  {
    var e, f: Flags := Entry({0, 1}, name), {0};
    var table := [e];
    assert table[..0] == [] && e in table && NamedBits(table, name) == e.bits;
    assert 0 in f * NamedBits(table, name);
    assert IsTrue(ObjectOf(f, table), name);
    assert 1 in FlagsOf(ObjectOf(f, table), table);
    assert Patched(ObjectOf(f, table), {}, table) == {0, 1};
  }
}
