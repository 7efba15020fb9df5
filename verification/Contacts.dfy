/** The trust-on-first-use contact store of torcall/core/identity.py. */
module Contacts {
  import opened Wrappers
  import opened Bytes

  predicate IsLoopbackAddress(address: string) {
    "127.0.0.1" <= address || "::1" <= address
  }

  /** One item of the dictionary; a field that the stored JSON lacks is None. */
  datatype Entry = Entry(address: string, key: Option<string>, name: Option<string>) {
    function KeyText(): string { key.GetOr("") }
    function NameText(): string { name.GetOr("") }
    predicate IsLoopback() { IsLoopbackAddress(address) }
    predicate HasKey(k: string) { key == Some(k) }
  }

  /** The dictionary, in insertion order. */
  type Store = seq<Entry>

  ghost predicate DistinctAddresses(s: Store) {
    forall i, j :: 0 <= i < j < |s| ==> s[i].address != s[j].address
  }

  /** A dictionary holds each address once. */
  type Dictionary = s: Store | DistinctAddresses(s) witness []

  lemma ReplaceKeepsAddresses(s: Store, i: nat, e: Entry)
    requires DistinctAddresses(s) && i < |s| && e.address == s[i].address
    ensures DistinctAddresses(s[i := e])
  {
  }

  function Lookup(s: Store, address: string): (r: Option<Entry>)
    ensures r.Some? ==> r.value in s && r.value.address == address
    ensures r.None? ==> forall e :: e in s ==> e.address != address
  {
    if s == [] then None else if s[0].address == address then Some(s[0]) else Lookup(s[1..], address)
  }

  function FirstWithKey(s: Store, key: string): (r: Option<Entry>)
    ensures r.Some? ==> r.value in s && r.value.HasKey(key)
    ensures r.None? ==> forall e :: e in s ==> !e.HasKey(key)
  {
    if s == [] then None else if s[0].HasKey(key) then Some(s[0]) else FirstWithKey(s[1..], key)
  }

  datatype Status = New | Match | KnownNewAddress | Mismatch

  function Check(s: Store, address: string, identity: Bytes): (Status, Store) {
    var key := Hex(identity);
    match Lookup(s, address)
    case Some(e) => (if e.HasKey(key) then Match else Mismatch, s)
    case None =>
      match FirstWithKey(s, key)
      case Some(other) => (KnownNewAddress, s + [Entry(address, Some(key), Some(other.NameText()))])
      case None => (New, s + [Entry(address, Some(key), Some(""))])
  }

  function Renamed(s: Store, key: string, name: string): (r: Store)
    ensures |r| == |s|
  {
    seq(|s|, i requires 0 <= i < |s| => if s[i].HasKey(key) then s[i].(name := Some(name)) else s[i])
  }

  function SetName(s: Store, address: string, name: string): Store {
    match Lookup(s, address)
    case None => s
    case Some(e) => Renamed(s, e.KeyText(), name)
  }

  function NameForKey(s: Store, key: string): string {
    if s == [] then ""
    else if s[0].HasKey(key) && s[0].NameText() != "" then s[0].NameText()
    else NameForKey(s[1..], key)
  }

  /** Removing address takes its whole identity with it; an entry without a key goes alone. */
  predicate GoesWith(e: Entry, removed: Entry) {
    if removed.KeyText() != "" then e.HasKey(removed.KeyText()) else e.address == removed.address
  }

  function Without(s: Store, removed: Entry): Store {
    if s == [] then []
    else if GoesWith(s[0], removed) then Without(s[1..], removed)
    else [s[0]] + Without(s[1..], removed)
  }

  function Remove(s: Store, address: string): Store {
    match Lookup(s, address)
    case None => s
    case Some(e) => Without(s, e)
  }

  function Repin(s: Store, address: string, identity: Bytes): Store {
    match Lookup(s, address)
    case None => s + [Entry(address, Some(Hex(identity)), Some(""))]
    case Some(e) =>
      seq(|s|, i requires 0 <= i < |s| =>
        if s[i].address == address then Entry(address, Some(Hex(identity)), Some(e.NameText())) else s[i])
  }

  /** An unnamed sibling under a real address takes over the name. */
  predicate Inherits(e: Entry, key: string) {
    !e.IsLoopback() && e.HasKey(key) && e.NameText() == ""
  }

  function CarryName(s: Store, key: string, name: string): (r: Store)
    ensures |r| == |s|
  {
    seq(|s|, i requires 0 <= i < |s| => if Inherits(s[i], key) then s[i].(name := Some(name)) else s[i])
  }

  function Dropped(s: Store, address: string): Store {
    if s == [] then []
    else if s[0].address == address then Dropped(s[1..], address)
    else [s[0]] + Dropped(s[1..], address)
  }

  function PurgeOne(s: Store, address: string): Store {
    match Lookup(s, address)
    case None => s
    case Some(e) =>
      Dropped(if e.KeyText() != "" && e.NameText() != "" then CarryName(s, e.KeyText(), e.NameText()) else s, address)
  }

  function PurgeAll(s: Store, stale: seq<string>): Store
    decreases |stale|
  {
    if stale == [] then s else PurgeAll(PurgeOne(s, stale[0]), stale[1..])
  }

  function LoopbackAddresses(s: Store): seq<string> {
    if s == [] then []
    else if s[0].IsLoopback() then [s[0].address] + LoopbackAddresses(s[1..])
    else LoopbackAddresses(s[1..])
  }

  function PurgeLoopback(s: Store): Store {
    PurgeAll(s, LoopbackAddresses(s))
  }

  // ---------------------------------------------------------------------------
  // The address book view
  // ---------------------------------------------------------------------------

  datatype Card = Card(key: string, name: string, addresses: seq<string>)

  function AddressesOf(s: Store, key: string): seq<string> {
    if s == [] then []
    else if s[0].HasKey(key) then [s[0].address] + AddressesOf(s[1..], key)
    else AddressesOf(s[1..], key)
  }

  /** One card for each identity, holding all its addresses in insertion order and the name that name_for_key finds. */
  ghost predicate IsGrouping(s: Store, cards: seq<Card>) {
    && (forall i, j :: 0 <= i < j < |cards| ==> cards[i].key != cards[j].key)
    && (forall i :: 0 <= i < |cards| ==>
          && cards[i].key != ""
          && cards[i].addresses == AddressesOf(s, cards[i].key) != []
          && cards[i].name == NameForKey(s, cards[i].key))
    && (forall e :: e in s && e.KeyText() != "" ==> exists i :: 0 <= i < |cards| && cards[i].key == e.KeyText())
  }

  lemma {:induction false} AppendEntry(s: Store, e: Entry, key: string)
    ensures AddressesOf(s + [e], key) == AddressesOf(s, key) + (if e.HasKey(key) then [e.address] else [])
    ensures NameForKey(s + [e], key)
         == if NameForKey(s, key) == "" && e.HasKey(key) then e.NameText() else NameForKey(s, key)
  {
    if s == [] {
      assert [e][1..] == [];
    } else {
      assert (s + [e])[1..] == s[1..] + [e];
      AppendEntry(s[1..], e, key);
    }
  }

  lemma {:induction false} NoCardNoAddress(s: Store, key: string)
    requires forall e :: e in s ==> !e.HasKey(key)
    ensures AddressesOf(s, key) == [] && NameForKey(s, key) == ""
  {
    if s != [] {
      NoCardNoAddress(s[1..], key);
    }
  }

  /** Appending an entry to the store files it in the card of its key, or in a new last card. */
  function Filed(cards: seq<Card>, at: nat, e: Entry): seq<Card>
    requires at <= |cards|
  {
    var bucket := if at < |cards| then cards[at] else Card(e.KeyText(), e.NameText(), []);
    var named := if bucket.name == "" then e.NameText() else bucket.name;
    var filed := Card(bucket.key, named, bucket.addresses + [e.address]);
    if at < |cards| then cards[at := filed] else cards + [filed]
  }

  lemma FilingKeepsGrouping(s: Store, cards: seq<Card>, at: nat, e: Entry)
    requires IsGrouping(s, cards) && e.KeyText() != ""
    requires at <= |cards| && (at < |cards| ==> cards[at].key == e.KeyText())
    requires forall i :: 0 <= i < at ==> cards[i].key != e.KeyText()
    ensures IsGrouping(s + [e], Filed(cards, at, e))
  {
    var r, key := Filed(cards, at, e), e.KeyText();
    if at == |cards| {
      NoCardNoAddress(s, key);
    }
    forall i | 0 <= i < |r|
      ensures r[i].addresses == AddressesOf(s + [e], r[i].key) != []
      ensures r[i].name == NameForKey(s + [e], r[i].key)
    {
      AppendEntry(s, e, r[i].key);
    }
    forall o | o in s + [e] && o.KeyText() != "" ensures exists i :: 0 <= i < |r| && r[i].key == o.KeyText() {
      if o.KeyText() == key {
        assert r[at].key == key;
      } else {
        var i :| 0 <= i < |cards| && cards[i].key == o.KeyText();
        assert r[i].key == o.KeyText();
      }
    }
  }

  lemma SkippingKeepsGrouping(s: Store, cards: seq<Card>, e: Entry)
    requires IsGrouping(s, cards) && e.KeyText() == ""
    ensures IsGrouping(s + [e], cards)
  {
    forall i | 0 <= i < |cards|
      ensures cards[i].addresses == AddressesOf(s + [e], cards[i].key)
      ensures cards[i].name == NameForKey(s + [e], cards[i].key)
    {
      AppendEntry(s, e, cards[i].key);
    }
  }

  /** AddressesOf lists exactly the addresses that carry the key. */
  lemma {:induction false} AddressesOfKey(s: Store, key: string, address: string)
    ensures address in AddressesOf(s, key) <==> exists e :: e in s && e.HasKey(key) && e.address == address
  {
    if s != [] {
      AddressesOfKey(s[1..], key, address);
      if exists e :: e in s && e.HasKey(key) && e.address == address {
        var e :| e in s && e.HasKey(key) && e.address == address;
        assert e == s[0] || e in s[1..];
      }
    }
  }

  lemma {:induction false} NoRepeatedAddress(s: Store, key: string)
    requires DistinctAddresses(s)
    ensures var a := AddressesOf(s, key); forall i, j :: 0 <= i < j < |a| ==> a[i] != a[j]
  {
    if s != [] {
      NoRepeatedAddress(s[1..], key);
      AddressesOfKey(s[1..], key, s[0].address);
    }
  }

  lemma OneKeyPerAddress(s: Store, k1: string, k2: string, address: string)
    requires DistinctAddresses(s) && address in AddressesOf(s, k1) && k1 != k2
    ensures address !in AddressesOf(s, k2)
  {
    AddressesOfKey(s, k1, address);
    AddressesOfKey(s, k2, address);
    var e :| e in s && e.HasKey(k1) && e.address == address;
    LookupFinds(s, e);
    forall f | f in s && f.address == address ensures f == e {
      LookupFinds(s, f);
    }
  }

  /** A grouping lists every keyed address once, on the card of its key, and nothing else. */
  lemma GroupingPartitions(s: Store, cards: seq<Card>)
    requires DistinctAddresses(s) && IsGrouping(s, cards)
    ensures forall e :: e in s && e.KeyText() != "" ==>
              exists i :: 0 <= i < |cards| && cards[i].key == e.KeyText() && e.address in cards[i].addresses
    ensures forall i, j, a :: 0 <= i < j < |cards| && a in cards[i].addresses ==> a !in cards[j].addresses
    ensures forall i, m, n :: 0 <= i < |cards| && 0 <= m < n < |cards[i].addresses| ==>
              cards[i].addresses[m] != cards[i].addresses[n]
    ensures forall i, a :: 0 <= i < |cards| && a in cards[i].addresses ==>
              exists e :: e in s && e.HasKey(cards[i].key) && e.address == a
  {
    forall e | e in s && e.KeyText() != ""
      ensures exists i :: 0 <= i < |cards| && cards[i].key == e.KeyText() && e.address in cards[i].addresses
    {
      var i :| 0 <= i < |cards| && cards[i].key == e.KeyText();
      AddressesOfKey(s, cards[i].key, e.address);
    }
    forall i, a | 0 <= i < |cards| && a in cards[i].addresses
      ensures exists e :: e in s && e.HasKey(cards[i].key) && e.address == a
    {
      AddressesOfKey(s, cards[i].key, a);
    }
    forall i, j, a | 0 <= i < j < |cards| && a in cards[i].addresses ensures a !in cards[j].addresses {
      OneKeyPerAddress(s, cards[i].key, cards[j].key, a);
    }
    forall i | 0 <= i < |cards| {
      NoRepeatedAddress(s, cards[i].key);
    }
  }

  // ---------------------------------------------------------------------------
  // Single operations: members, names and pins
  // ---------------------------------------------------------------------------

  /** All addresses of one identity share one name. */
  ghost predicate Coherent(s: Store) {
    forall a, b :: a in s && b in s && a.key.Some? && a.key == b.key ==> a.NameText() == b.NameText()
  }

  lemma {:induction false} LookupFinds(s: Store, e: Entry)
    requires DistinctAddresses(s) && e in s
    ensures Lookup(s, e.address) == Some(e)
  {
    if s[0] != e {
      assert e in s[1..];
      LookupFinds(s[1..], e);
    }
  }

  lemma {:induction false} WithoutMembers(s: Store, removed: Entry)
    ensures forall e :: e in Without(s, removed) <==> e in s && !GoesWith(e, removed)
    ensures DistinctAddresses(s) ==> DistinctAddresses(Without(s, removed))
  {
    if s != [] {
      WithoutMembers(s[1..], removed);
      assert forall e :: e in s <==> e == s[0] || e in s[1..];
      assert DistinctAddresses(s) ==> forall e :: e in s[1..] ==> e.address != s[0].address;
    }
  }

  /** Those that stay keep their order. */
  lemma {:induction false} WithoutKeepsOrder(s: Store, e: Entry, removed: Entry)
    ensures Without(s + [e], removed) == Without(s, removed) + (if GoesWith(e, removed) then [] else [e])
  {
    if s == [] {
      assert [e][1..] == [];
    } else {
      assert (s + [e])[1..] == s[1..] + [e];
      WithoutKeepsOrder(s[1..], e, removed);
    }
  }

  lemma {:induction false} DroppedMembers(s: Store, address: string)
    ensures forall e :: e in Dropped(s, address) <==> e in s && e.address != address
    ensures DistinctAddresses(s) ==> DistinctAddresses(Dropped(s, address))
  {
    if s != [] {
      DroppedMembers(s[1..], address);
      assert forall e :: e in s <==> e == s[0] || e in s[1..];
      assert DistinctAddresses(s) ==> forall e :: e in s[1..] ==> e.address != s[0].address;
    }
  }

  /**
   * Removing a contact leaves no address of that identity and touches nothing else; a contact without a key goes alone.
   */
  lemma RemoveTakesWholeIdentity(s: Store, removed: Entry)
    requires DistinctAddresses(s) && removed in s
    ensures var left := Remove(s, removed.address);
            if removed.KeyText() != "" then forall e :: e in left <==> e in s && e.key != removed.key
            else forall e :: e in left <==> e in s && e.address != removed.address
    ensures removed !in Remove(s, removed.address)
    ensures forall a :: Lookup(s, a).None? ==> Remove(s, a) == s
  {
    LookupFinds(s, removed);
    WithoutMembers(s, removed);
  }

  /** Renaming gives every address of the identity the new name, and nothing else changes. */
  lemma RenameTakesWholeIdentity(s: Store, e: Entry, name: string)
    requires DistinctAddresses(s) && e in s && e.key.Some?
    ensures var renamed := SetName(s, e.address, name);
            && |renamed| == |s|
            && forall i :: 0 <= i < |s| ==>
                 && renamed[i].address == s[i].address && renamed[i].key == s[i].key
                 && (if s[i].key == e.key then renamed[i].NameText() == name else renamed[i] == s[i])
  {
    LookupFinds(s, e);
  }

  /** A new name that is not empty is the one that the identity has from then on. */
  lemma {:induction false} RenamedIdentityHasName(s: Store, e: Entry, name: string)
    requires DistinctAddresses(s) && e in s && e.key.Some? && name != ""
    ensures NameForKey(SetName(s, e.address, name), e.KeyText()) == name
  {
    var renamed := SetName(s, e.address, name);
    RenameTakesWholeIdentity(s, e, name);
    var i :| 0 <= i < |s| && s[i] == e;
    assert renamed[i] in renamed && renamed[i].HasKey(e.KeyText());
    NameForKeyFinds(renamed, e.KeyText());
    NameForKeyIsAName(renamed, e.KeyText());
  }

  ghost predicate HasRealAddress(s: Store, key: string) {
    exists e :: e in s && e.HasKey(key) && !e.IsLoopback()
  }

  ghost predicate HasName(s: Store, key: string) {
    exists e :: e in s && e.HasKey(key) && e.NameText() != ""
  }

  lemma {:induction false} NameForKeyFinds(s: Store, key: string)
    ensures NameForKey(s, key) != "" <==> HasName(s, key)
  {
    if s != [] {
      NameForKeyFinds(s[1..], key);
      if HasName(s, key) {
        var e :| e in s && e.HasKey(key) && e.NameText() != "";
        assert e == s[0] || e in s[1..];
      }
    }
  }

  // ---------------------------------------------------------------------------
  // purge_loopback
  // ---------------------------------------------------------------------------

  /** The pins under real addresses, in order. */
  function RealPins(s: Store): seq<(string, Option<string>)> {
    if s == [] then []
    else if s[0].IsLoopback() then RealPins(s[1..])
    else [(s[0].address, s[0].key)] + RealPins(s[1..])
  }

  lemma {:induction false} RealPinsHold(s: Store, e: Entry)
    requires e in s && !e.IsLoopback()
    ensures (e.address, e.key) in RealPins(s)
  {
    if e != s[0] {
      RealPinsHold(s[1..], e);
    }
  }

  lemma {:induction false} RealPinsBack(s: Store, pin: (string, Option<string>))
    requires pin in RealPins(s)
    ensures exists e :: e in s && e.address == pin.0 && e.key == pin.1
  {
    if s[0].IsLoopback() || (s[0].address, s[0].key) != pin {
      RealPinsBack(s[1..], pin);
      var e :| e in s[1..] && e.address == pin.0 && e.key == pin.1;
      assert e in s;
    } else {
      assert s[0] in s;
    }
  }

  lemma {:induction false} DropKeepsRealPins(s: Store, address: string)
    requires IsLoopbackAddress(address)
    ensures RealPins(Dropped(s, address)) == RealPins(s)
  {
    if s != [] {
      DropKeepsRealPins(s[1..], address);
    }
  }

  lemma {:induction false} CarryKeepsRealPins(s: Store, key: string, name: string)
    ensures RealPins(CarryName(s, key, name)) == RealPins(s)
  {
    if s != [] {
      assert CarryName(s, key, name)[1..] == CarryName(s[1..], key, name);
      CarryKeepsRealPins(s[1..], key, name);
    }
  }

  lemma CarryMembers(s: Store, key: string, name: string)
    ensures forall e :: e in CarryName(s, key, name) ==>
              exists o :: o in s && e == if Inherits(o, key) then o.(name := Some(name)) else o
    ensures forall o :: o in s ==> (if Inherits(o, key) then o.(name := Some(name)) else o) in CarryName(s, key, name)
    ensures DistinctAddresses(s) ==> DistinctAddresses(CarryName(s, key, name))
  {
    var r := CarryName(s, key, name);
    forall e | e in r ensures exists o :: o in s && e == if Inherits(o, key) then o.(name := Some(name)) else o {
      var i :| 0 <= i < |r| && r[i] == e;
      assert s[i] in s;
    }
    forall o | o in s ensures (if Inherits(o, key) then o.(name := Some(name)) else o) in r {
      var i :| 0 <= i < |s| && s[i] == o;
      assert r[i] in r;
    }
  }

  /** e is o, possibly with a name where o had none. */
  predicate Continues(e: Entry, o: Entry) {
    e.address == o.address && e.key == o.key && (o.NameText() != "" ==> e.NameText() == o.NameText())
  }

  ghost predicate ComesFrom(r: Store, s: Store) {
    forall e :: e in r ==> exists o :: o in s && Continues(e, o)
  }

  lemma ComesFromTransitive(r: Store, m: Store, s: Store)
    requires ComesFrom(r, m) && ComesFrom(m, s)
    ensures ComesFrom(r, s)
  {
    forall e | e in r ensures exists o :: o in s && Continues(e, o) {
      var mid :| mid in m && Continues(e, mid);
      var o :| o in s && Continues(mid, o);
      assert Continues(e, o);
    }
  }

  /** An entry under another address outlives the purge of one; a real sibling of the purged entry has its name. */
  lemma KeptByPurgeOne(s: Store, address: string, o: Entry) returns (e: Entry)
    requires DistinctAddresses(s) && o in s && o.address != address && Lookup(s, address).Some?
    ensures e in PurgeOne(s, address) && Continues(e, o)
    ensures var gone := Lookup(s, address).value;
            o.key == gone.key && o.KeyText() != "" && !o.IsLoopback() && gone.NameText() != "" ==> e.NameText() != ""
  {
    var gone := Lookup(s, address).value;
    if gone.KeyText() != "" && gone.NameText() != "" {
      CarryMembers(s, gone.KeyText(), gone.NameText());
      DroppedMembers(CarryName(s, gone.KeyText(), gone.NameText()), address);
      e := if Inherits(o, gone.KeyText()) then o.(name := Some(gone.NameText())) else o;
    } else {
      DroppedMembers(s, address);
      e := o;
    }
  }

  lemma PurgeOneKeepsNames(s: Store, address: string, key: string)
    requires DistinctAddresses(s) && key != "" && IsLoopbackAddress(address)
    requires HasRealAddress(s, key) && HasName(s, key)
    ensures HasRealAddress(PurgeOne(s, address), key) && HasName(PurgeOne(s, address), key)
  {
    if Lookup(s, address).Some? {
      var survivor :| survivor in s && survivor.HasKey(key) && !survivor.IsLoopback();
      var named :| named in s && named.HasKey(key) && named.NameText() != "";
      var e := KeptByPurgeOne(s, address, survivor);
      assert e.HasKey(key) && !e.IsLoopback();
      if named.address == address {
        LookupFinds(s, named);
        assert e.NameText() != "";
      } else {
        var n := KeptByPurgeOne(s, address, named);
        assert n.HasKey(key) && n.NameText() != "";
      }
    }
  }

  /** What purging one loopback address keeps. */
  lemma PurgeOneStep(s: Store, address: string)
    requires DistinctAddresses(s) && IsLoopbackAddress(address)
    ensures DistinctAddresses(PurgeOne(s, address))
    ensures RealPins(PurgeOne(s, address)) == RealPins(s)
    ensures forall e :: e in PurgeOne(s, address) ==> e.address != address
    ensures ComesFrom(PurgeOne(s, address), s)
    ensures Coherent(s) ==> Coherent(PurgeOne(s, address))
  {
    if Lookup(s, address).Some? {
      var gone := Lookup(s, address).value;
      if gone.KeyText() != "" && gone.NameText() != "" {
        var carried := CarryName(s, gone.KeyText(), gone.NameText());
        CarryMembers(s, gone.KeyText(), gone.NameText());
        CarryKeepsRealPins(s, gone.KeyText(), gone.NameText());
        DroppedMembers(carried, address);
        DropKeepsRealPins(carried, address);
      } else {
        DroppedMembers(s, address);
        DropKeepsRealPins(s, address);
      }
    }
  }

  lemma {:induction false} PurgeAllKeeps(s: Store, stale: seq<string>)
    requires DistinctAddresses(s)
    requires forall a :: a in stale ==> IsLoopbackAddress(a)
    ensures DistinctAddresses(PurgeAll(s, stale))
    ensures RealPins(PurgeAll(s, stale)) == RealPins(s)
    ensures ComesFrom(PurgeAll(s, stale), s)
    ensures Coherent(s) ==> Coherent(PurgeAll(s, stale))
    decreases |stale|
  {
    if stale != [] {
      PurgeOneStep(s, stale[0]);
      PurgeAllKeeps(PurgeOne(s, stale[0]), stale[1..]);
      ComesFromTransitive(PurgeAll(s, stale), PurgeOne(s, stale[0]), s);
    }
  }

  lemma {:induction false} PurgeAllRemoves(s: Store, stale: seq<string>, e: Entry)
    requires DistinctAddresses(s)
    requires forall a :: a in stale ==> IsLoopbackAddress(a)
    requires e in PurgeAll(s, stale)
    ensures e.address !in stale
    decreases |stale|
  {
    if stale != [] {
      var t := PurgeOne(s, stale[0]);
      PurgeOneStep(s, stale[0]);
      PurgeAllRemoves(t, stale[1..], e);
      PurgeAllKeeps(t, stale[1..]);
      var o :| o in t && Continues(e, o);
      assert e.address != stale[0];
    }
  }

  lemma {:induction false} PurgeAllKeepsNames(s: Store, stale: seq<string>, key: string)
    requires DistinctAddresses(s) && key != ""
    requires forall a :: a in stale ==> IsLoopbackAddress(a)
    requires HasRealAddress(s, key) && HasName(s, key)
    ensures HasName(PurgeAll(s, stale), key)
    decreases |stale|
  {
    if stale != [] {
      PurgeOneStep(s, stale[0]);
      PurgeOneKeepsNames(s, stale[0], key);
      PurgeAllKeepsNames(PurgeOne(s, stale[0]), stale[1..], key);
    }
  }

  lemma {:induction false} LoopbackAddressesOf(s: Store)
    ensures forall a :: a in LoopbackAddresses(s) <==> exists e :: e in s && e.IsLoopback() && e.address == a
  {
    if s != [] {
      LoopbackAddressesOf(s[1..]);
      assert forall e :: e in s <==> e == s[0] || e in s[1..];
    }
  }

  /** Purging leaves no loopback address, changes no pin under a real address, and overwrites no name. */
  lemma PurgeLoopbackEffect(s: Store)
    requires DistinctAddresses(s)
    ensures forall e :: e in PurgeLoopback(s) ==> !e.IsLoopback()
    ensures RealPins(PurgeLoopback(s)) == RealPins(s)
    ensures ComesFrom(PurgeLoopback(s), s)
    ensures DistinctAddresses(PurgeLoopback(s))
    ensures Coherent(s) ==> Coherent(PurgeLoopback(s))
  {
    var stale := LoopbackAddresses(s);
    LoopbackAddressesOf(s);
    PurgeAllKeeps(s, stale);
    forall e | e in PurgeLoopback(s) ensures !e.IsLoopback() {
      PurgeAllRemoves(s, stale, e);
      var o :| o in s && Continues(e, o);
    }
  }

  lemma LoopbackHosts(rest: string)
    ensures IsLoopbackAddress("127.0.0.1" + rest) && IsLoopbackAddress("::1" + rest)
  {
  }

  lemma PurgeLeavesNothingAt(s: Store, address: string)
    requires DistinctAddresses(s) && IsLoopbackAddress(address)
    ensures Lookup(PurgeLoopback(s), address).None?
  {
    PurgeLoopbackEffect(s);
  }

  /** The addresses of an incoming connection, with any port behind them, are gone after a purge. */
  lemma {:induction false} PurgeTakesLoopback(s: Store, rest: string)
    requires DistinctAddresses(s)
    ensures Lookup(PurgeLoopback(s), "127.0.0.1" + rest).None?
    ensures Lookup(PurgeLoopback(s), "::1" + rest).None?
  {
    LoopbackHosts(rest);
    PurgeLeavesNothingAt(s, "127.0.0.1" + rest);
    PurgeLeavesNothingAt(s, "::1" + rest);
  }

  /** An identity that survives the purge keeps a name if it had one, whether or not the names were coherent. */
  lemma {:induction false} PurgeLosesNoName(s: Store, key: string)
    requires DistinctAddresses(s) && key != ""
    requires NameForKey(s, key) != "" && HasRealAddress(s, key)
    ensures NameForKey(PurgeLoopback(s), key) != ""
  {
    NameForKeyFinds(s, key);
    LoopbackAddressesOf(s);
    PurgeAllKeepsNames(s, LoopbackAddresses(s), key);
    NameForKeyFinds(PurgeLoopback(s), key);
  }

  // ---------------------------------------------------------------------------
  // Runs
  // ---------------------------------------------------------------------------

  /** Every way the program changes a store, except a forced re-pin, which no call path uses. */
  datatype Change =
    | CheckPeer(address: string, identity: Bytes)
    | Rename(address: string, name: string)
    | RemoveContact(address: string)
    | Purge

  function Apply(s: Store, c: Change): Store {
    match c
    case CheckPeer(a, identity) => Check(s, a, identity).1
    case Rename(a, name) => SetName(s, a, name)
    case RemoveContact(a) => Remove(s, a)
    case Purge => PurgeLoopback(s)
  }

  function ApplyAll(s: Store, changes: seq<Change>): Store
    decreases |changes|
  {
    if changes == [] then s else ApplyAll(Apply(s, changes[0]), changes[1..])
  }

  lemma RenamedMembers(s: Store, key: string, name: string)
    ensures forall e :: e in Renamed(s, key, name) ==>
              exists o :: o in s && e == if o.HasKey(key) then o.(name := Some(name)) else o
    ensures DistinctAddresses(s) ==> DistinctAddresses(Renamed(s, key, name))
  {
    var r := Renamed(s, key, name);
    forall e | e in r ensures exists o :: o in s && e == if o.HasKey(key) then o.(name := Some(name)) else o {
      var i :| 0 <= i < |r| && r[i] == e;
      assert s[i] in s;
    }
  }

  lemma ChangeKeepsNamesCoherent(s: Store, c: Change)
    requires DistinctAddresses(s)
    ensures DistinctAddresses(Apply(s, c))
    ensures Coherent(s) ==> Coherent(Apply(s, c))
  {
    match c
    case CheckPeer(a, identity) =>
    case Rename(a, name) =>
      if Lookup(s, a).Some? {
        RenamedMembers(s, Lookup(s, a).value.KeyText(), name);
      }
    case RemoveContact(a) =>
      if Lookup(s, a).Some? {
        WithoutMembers(s, Lookup(s, a).value);
      }
    case Purge => PurgeLoopbackEffect(s);
  }

  /** No run of changes makes two addresses of one identity disagree about its name. */
  lemma {:induction false} NamesStayCoherent(s: Store, changes: seq<Change>)
    requires DistinctAddresses(s) && Coherent(s)
    ensures DistinctAddresses(ApplyAll(s, changes)) && Coherent(ApplyAll(s, changes))
    decreases |changes|
  {
    if changes != [] {
      ChangeKeepsNamesCoherent(s, changes[0]);
      NamesStayCoherent(Apply(s, changes[0]), changes[1..]);
    }
  }

  /** What a re-pin leaves: the new pin, and every entry under another address. */
  lemma RepinMembers(s: Store, address: string, identity: Bytes, pinned: Entry)
    requires DistinctAddresses(s)
    requires pinned == Entry(address, Some(Hex(identity)), Some(NameAt(s, address)))
    ensures forall e :: e in Repin(s, address, identity) <==> e == pinned || (e in s && e.address != address)
  {
    var r := Repin(s, address, identity);
    if Lookup(s, address).Some? {
      var i :| 0 <= i < |s| && s[i] == Lookup(s, address).value;
      assert r[i] == pinned;
    } else {
      assert r[|s|] == pinned;
    }
    forall e | e in s && e.address != address ensures e in r {
      var i :| 0 <= i < |s| && s[i] == e;
      assert r[i] == e;
    }
    forall e | e in r ensures e == pinned || (e in s && e.address != address) {
      var i :| 0 <= i < |r| && r[i] == e;
    }
  }

  function NameAt(s: Store, address: string): string {
    match Lookup(s, address)
    case Some(e) => e.NameText()
    case None => ""
  }

  /** A forced re-pin keeps the names coherent exactly when the other addresses of the new identity agree with it. */
  lemma {:induction false} RepinKeepsNamesIff(s: Store, address: string, identity: Bytes)
    requires DistinctAddresses(s) && Coherent(s)
    ensures Coherent(Repin(s, address, identity)) <==>
            forall e :: e in s && e.address != address && e.HasKey(Hex(identity)) ==> e.NameText() == NameAt(s, address)
  {
    var pinned := Entry(address, Some(Hex(identity)), Some(NameAt(s, address)));
    RepinMembers(s, address, identity, pinned);
    CoherentWith(s, Repin(s, address, identity), address, pinned);
  }

  /** A store with one entry put in place of an address is coherent exactly when the entry agrees with its siblings. */
  lemma CoherentWith(s: Store, r: Store, address: string, pinned: Entry)
    requires Coherent(s) && pinned.key.Some?
    requires forall e :: e in r <==> e == pinned || (e in s && e.address != address)
    ensures Coherent(r) <==>
            forall e :: e in s && e.address != address && e.key == pinned.key ==> e.NameText() == pinned.NameText()
  {
    if Coherent(r) {
      forall e | e in s && e.address != address && e.key == pinned.key ensures e.NameText() == pinned.NameText() {
        assert e in r && pinned in r;
      }
    }
  }

  /** Against a pinned key the text comparison of check is one of keys: the pinned key matches and no other does. */
  lemma {:induction false} CheckComparesKeys(s: Store, address: string, pinned: Bytes, identity: Bytes)
    requires PinnedAs(s, address, Some(Hex(pinned)))
    ensures Check(s, address, identity) == (if identity == pinned then Match else Mismatch, s)
  {
    if identity != pinned && Hex(identity) == Hex(pinned) {
      HexInjective(identity, pinned);
      assert false;
    }
  }

  ghost predicate PinnedAs(s: Store, address: string, key: Option<string>) {
    Lookup(s, address).Some? && Lookup(s, address).value.key == key
  }

  /** address stays in the store throughout the run. */
  ghost predicate StaysPinned(s: Store, address: string, changes: seq<Change>)
    decreases |changes|
  {
    && Lookup(s, address).Some?
    && (changes != [] ==> StaysPinned(Apply(s, changes[0]), address, changes[1..]))
  }

  /** A change adds pins only for addresses that had none, and alters no key. */
  lemma ChangedEntry(s: Store, c: Change, e: Entry)
    requires DistinctAddresses(s) && e in Apply(s, c)
    ensures Lookup(s, e.address).None? || exists o :: o in s && o.address == e.address && o.key == e.key
  {
    match c
    case CheckPeer(a, identity) =>
      if e !in s {
        assert e.address == a;
      }
    case Rename(a, name) =>
      if Lookup(s, a).Some? {
        RenamedMembers(s, Lookup(s, a).value.KeyText(), name);
      }
    case RemoveContact(a) =>
      if Lookup(s, a).Some? {
        WithoutMembers(s, Lookup(s, a).value);
      }
    case Purge =>
      PurgeLoopbackEffect(s);
      var o :| o in s && Continues(e, o);
  }

  lemma ChangeKeepsPin(s: Store, address: string, c: Change)
    requires DistinctAddresses(s) && Lookup(s, address).Some? && Lookup(Apply(s, c), address).Some?
    ensures Lookup(Apply(s, c), address).value.key == Lookup(s, address).value.key
  {
    var after := Lookup(Apply(s, c), address).value;
    ChangedEntry(s, c, after);
    var o :| o in s && o.address == after.address && o.key == after.key;
    LookupFinds(s, o);
  }

  /**
   * While an address stays pinned its key never changes; at the end the pinned key, and no other, is answered with a
   * match, every other with a mismatch, and neither changes the store.
   */
  lemma {:induction false} PinNeverChanges(s: Store, address: string, changes: seq<Change>, identity: Bytes)
    requires DistinctAddresses(s) && StaysPinned(s, address, changes)
    ensures var e, t := ApplyAll(s, changes), Lookup(s, address).value.key;
            && PinnedAs(e, address, t)
            && Check(e, address, identity) == (if t == Some(Hex(identity)) then Match else Mismatch, e)
            && (forall pinned :: t == Some(Hex(pinned)) ==>
                  Check(e, address, identity) == (if identity == pinned then Match else Mismatch, e))
    decreases |changes|
  {
    if changes != [] {
      ChangeKeepsPin(s, address, changes[0]);
      ChangeKeepsNamesCoherent(s, changes[0]);
      PinNeverChanges(Apply(s, changes[0]), address, changes[1..], identity);
    }
    forall pinned | Lookup(s, address).value.key == Some(Hex(pinned))
      ensures Check(ApplyAll(s, changes), address, identity)
           == (if identity == pinned then Match else Mismatch, ApplyAll(s, changes))
    {
      CheckComparesKeys(ApplyAll(s, changes), address, pinned, identity);
    }
  }

  /** Whatever check answers, the address is pinned afterwards, and to the offered key unless that is a mismatch. */
  lemma {:induction false} CheckPins(s: Store, address: string, identity: Bytes)
    requires DistinctAddresses(s)
    ensures var (status, t) := Check(s, address, identity);
            && Lookup(t, address).Some?
            && (PinnedAs(t, address, Some(Hex(identity))) <==> status != Mismatch)
            && (status == New <==> Lookup(s, address).None? && forall e :: e in s ==> !e.HasKey(Hex(identity)))
            && (status == New ==> Lookup(t, address).value.NameText() == "")
            && (status in {Match, Mismatch} <==> Lookup(s, address).Some?)
            && (status == KnownNewAddress && Coherent(s) ==>
                  Lookup(t, address).value.NameText() == NameForKey(s, Hex(identity)))
            && (forall other :: other != address ==> Lookup(t, other) == Lookup(s, other))
  {
    var key := Hex(identity);
    var (status, t) := Check(s, address, identity);
    if t != s {
      var added := t[|s|];
      forall other ensures Lookup(t, other) == if Lookup(s, other).None? && other == address then Some(added)
                                               else Lookup(s, other) {
        LookupAppend(s, added, other);
      }
      if status == KnownNewAddress && Coherent(s) {
        NameOfAny(s, key, FirstWithKey(s, key).value);
      }
    }
  }

  lemma {:induction false} LookupAppend(s: Store, e: Entry, address: string)
    ensures Lookup(s + [e], address)
         == if Lookup(s, address).None? && address == e.address then Some(e) else Lookup(s, address)
  {
    if s == [] {
      assert [e][1..] == [];
    } else {
      assert (s + [e])[1..] == s[1..] + [e];
      LookupAppend(s[1..], e, address);
    }
  }

  lemma NameOfAny(s: Store, key: string, e: Entry)
    requires Coherent(s) && e in s && e.HasKey(key)
    ensures NameForKey(s, key) == e.NameText()
  {
    NameForKeyFinds(s, key);
    if NameForKey(s, key) != "" {
      NameForKeyIsAName(s, key);
    }
  }

  lemma {:induction false} NameForKeyIsAName(s: Store, key: string)
    requires NameForKey(s, key) != ""
    ensures exists e :: e in s && e.HasKey(key) && e.NameText() == NameForKey(s, key)
  {
    if !(s[0].HasKey(key) && s[0].NameText() != "") {
      NameForKeyIsAName(s[1..], key);
      var e :| e in s[1..] && e.HasKey(key) && e.NameText() == NameForKey(s[1..], key);
      assert e in s;
    }
  }
}
