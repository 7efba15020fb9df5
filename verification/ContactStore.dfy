/** The mutable contact store, its loops proved against the store functions of Contacts. */
module ContactStores {
  import opened Wrappers
  import opened Bytes
  import Contacts

  class ContactStore {
    var contacts: Contacts.Dictionary

    constructor (loaded: Contacts.Dictionary)
      ensures contacts == loaded
    {
      contacts := loaded;
    }

    method Check(address: string, identity: Bytes) returns (status: Contacts.Status)
      modifies this
      ensures (status, contacts) == Contacts.Check(old(contacts), address, identity)
    {
      var key := Hex(identity);
      var entry := Contacts.Lookup(contacts, address);
      if entry.Some? {
        if entry.value.HasKey(key) {
          return Contacts.Match;
        }
        return Contacts.Mismatch;
      }
      for i := 0 to |contacts|
        invariant contacts == old(contacts)
        invariant Contacts.FirstWithKey(contacts, key) == Contacts.FirstWithKey(contacts[i..], key)
      {
        var other := contacts[i];
        if other.HasKey(key) {
          contacts := contacts + [Contacts.Entry(address, Some(key), Some(other.NameText()))];
          return Contacts.KnownNewAddress;
        }
        assert contacts[i..][1..] == contacts[i + 1..];
      }
      contacts := contacts + [Contacts.Entry(address, Some(key), Some(""))];
      return Contacts.New;
    }

    method SetName(address: string, name: string)
      modifies this
      ensures contacts == Contacts.SetName(old(contacts), address, name)
    {
      var entry := Contacts.Lookup(contacts, address);
      if entry.None? {
        return;
      }
      var key := entry.value.KeyText();
      ghost var renamed := Contacts.Renamed(contacts, key, name);
      for i := 0 to |contacts|
        invariant |contacts| == |renamed| == |old(contacts)|
        invariant forall k :: 0 <= k < |contacts| ==> contacts[k] == if k < i then renamed[k] else old(contacts)[k]
      {
        if contacts[i].HasKey(key) {
          Contacts.ReplaceKeepsAddresses(contacts, i, contacts[i].(name := Some(name)));
          contacts := contacts[i := contacts[i].(name := Some(name))];
        }
      }
    }

    method NameForKey(key: string) returns (name: string)
      ensures name == Contacts.NameForKey(contacts, key)
    {
      for i := 0 to |contacts|
        invariant Contacts.NameForKey(contacts, key) == Contacts.NameForKey(contacts[i..], key)
      {
        if contacts[i].HasKey(key) && contacts[i].NameText() != "" {
          return contacts[i].NameText();
        }
        assert contacts[i..][1..] == contacts[i + 1..];
      }
      return "";
    }

    /** dict.pop(address, None) */
    method Pop(address: string)
      modifies this
      ensures contacts == Contacts.Dropped(old(contacts), address)
    {
      var kept: Contacts.Store := [];
      for i := 0 to |contacts|
        invariant contacts == old(contacts)
        invariant Contacts.Dropped(contacts, address) == kept + Contacts.Dropped(contacts[i..], address)
      {
        if contacts[i].address != address {
          kept := kept + [contacts[i]];
        }
        assert contacts[i..][1..] == contacts[i + 1..];
      }
      assert kept == Contacts.Dropped(contacts, address);
      Contacts.DroppedMembers(contacts, address);
      contacts := kept;
    }

    /** Returns how many addresses went. */
    method Remove(address: string) returns (count: nat)
      modifies this
      ensures contacts == Contacts.Remove(old(contacts), address)
      ensures count == |old(contacts)| - |contacts|
    {
      var entry := Contacts.Lookup(contacts, address);
      if entry.None? {
        return 0;
      }
      var removed := entry.value;
      var kept := KeepOthers(contacts, removed);
      Contacts.WithoutMembers(contacts, removed);
      count := |contacts| - |kept|;
      contacts := kept;
    }

    method Repin(address: string, identity: Bytes)
      modifies this
      ensures contacts == Contacts.Repin(old(contacts), address, identity)
    {
      var entry := Contacts.Lookup(contacts, address);
      var key := Hex(identity);
      if entry.None? {
        contacts := contacts + [Contacts.Entry(address, Some(key), Some(""))];
        return;
      }
      var pinned := Contacts.Entry(address, Some(key), Some(entry.value.NameText()));
      var s := contacts;
      contacts := seq(|s|, i requires 0 <= i < |s| => if s[i].address == address then pinned else s[i]);
    }

    /** Returns how many loopback addresses went. */
    method PurgeLoopback() returns (count: nat)
      modifies this
      ensures contacts == Contacts.PurgeLoopback(old(contacts))
      ensures count == |Contacts.LoopbackAddresses(old(contacts))|
    {
      var stale := Contacts.LoopbackAddresses(contacts);
      ghost var start := contacts;
      Contacts.LoopbackAddressesOf(start);
      for n := 0 to |stale|
        invariant Contacts.PurgeAll(start, stale) == Contacts.PurgeAll(contacts, stale[n..])
      {
        var entry := Contacts.Lookup(contacts, stale[n]);
        assert stale[n] in stale;
        Contacts.PurgeOneStep(contacts, stale[n]);
        ghost var next := Contacts.PurgeOne(contacts, stale[n]);
        if entry.Some? {
          if entry.value.KeyText() != "" && entry.value.NameText() != "" {
            CarryName(entry.value.KeyText(), entry.value.NameText());
          }
          Pop(stale[n]);
        }
        assert contacts == next;
        assert stale[n..][1..] == stale[n + 1..];
      }
      return |stale|;
    }

    /** Give the name to every unnamed sibling under a real address. */
    method CarryName(key: string, name: string)
      modifies this
      ensures contacts == Contacts.CarryName(old(contacts), key, name)
    {
      ghost var carried := Contacts.CarryName(contacts, key, name);
      for i := 0 to |contacts|
        invariant |contacts| == |carried| == |old(contacts)|
        invariant forall k :: 0 <= k < |contacts| ==> contacts[k] == if k < i then carried[k] else old(contacts)[k]
      {
        if Contacts.Inherits(contacts[i], key) {
          Contacts.ReplaceKeepsAddresses(contacts, i, contacts[i].(name := Some(name)));
          contacts := contacts[i := contacts[i].(name := Some(name))];
        }
      }
    }

    /** The address book: contacts grouped by identity. */
    method AllContacts() returns (cards: seq<Contacts.Card>)
      ensures Contacts.IsGrouping(contacts, cards)
    {
      cards := [];
      for n := 0 to |contacts|
        invariant Contacts.IsGrouping(contacts[..n], cards)
      {
        var entry := contacts[n];
        var key := entry.KeyText();
        assert contacts[..n + 1] == contacts[..n] + [entry];
        if key == "" {
          Contacts.SkippingKeepsGrouping(contacts[..n], cards, entry);
        } else {
          var at := FindCard(cards, key);
          Contacts.FilingKeepsGrouping(contacts[..n], cards, at, entry);
          ghost var filed := Contacts.Filed(cards, at, entry);
          if at == |cards| {
            cards := cards + [Contacts.Card(key, entry.NameText(), [])];
          }
          var bucket := cards[at];
          bucket := bucket.(addresses := bucket.addresses + [entry.address]);
          if entry.NameText() != "" && bucket.name == "" {
            bucket := bucket.(name := entry.NameText());
          }
          cards := cards[at := bucket];
          assert cards == filed;
        }
      }
      assert contacts[..|contacts|] == contacts;
    }
  }

  /** The entries that do not go with the removed one. */
  method KeepOthers(s: Contacts.Store, removed: Contacts.Entry) returns (kept: Contacts.Store)
    ensures kept == Contacts.Without(s, removed) && |kept| <= |s|
  {
    kept := [];
    for i := 0 to |s|
      invariant |kept| <= i
      invariant Contacts.Without(s, removed) == kept + Contacts.Without(s[i..], removed)
    {
      if !Contacts.GoesWith(s[i], removed) {
        kept := kept + [s[i]];
      }
      assert s[i..][1..] == s[i + 1..];
    }
  }

  method FindCard(cards: seq<Contacts.Card>, key: string) returns (at: nat)
    ensures at <= |cards|
    ensures at < |cards| ==> cards[at].key == key
    ensures forall i :: 0 <= i < at ==> cards[i].key != key
  {
    at := 0;
    while at < |cards| && cards[at].key != key
      invariant at <= |cards|
      invariant forall i :: 0 <= i < at ==> cards[i].key != key
    {
      at := at + 1;
    }
  }
}
