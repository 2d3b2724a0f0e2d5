/** The request handlers, as operations on the stored document. Each mutating
    handler reads the whole document, changes it in memory and, on success,
    writes it back; here the store object is the document and its fields are changed in place. */
module Server {
  import opened Json
  import opened Sorting
  import opened Blocklist

  class Store {
    var fixedExtensions: seq<FixedExtension>
    var customExtensions: seq<CustomExtension>

    function Snapshot(): Document
      reads this
    {
      Document(fixedExtensions, customExtensions)
    }

    ghost predicate Valid()
      reads this
    {
      Consistent(Snapshot())
    }

    /** The document as first read: the stored one, or the seeded one when the
        file is missing or does not parse. */
    constructor Load(stored: Option<Document>)
      ensures Snapshot() == Loaded(stored)
      ensures stored.None? ==> Valid() && BlockedIds(fixedExtensions) == [] && customExtensions == []
    {
      var d := Loaded(stored);
      fixedExtensions := d.fixedExtensions;
      customExtensions := d.customExtensions;
    }

    /** GET of the fixed list: the entries ordered by identifier. The sort runs
        on the copy the request read, so the stored document is unchanged. */
    method ListFixed() returns (r: seq<FixedExtension>)
      ensures multiset(r) == multiset(fixedExtensions)
      ensures SortedBy(r, ByIdentifier)
      ensures forall e :: Ties(r, e, ByIdentifier) == Ties(fixedExtensions, e, ByIdentifier)
      ensures Valid() ==> FixedIds(r) == FixedListingOrder
    {
      r := Sort(fixedExtensions, ByIdentifier);
      ByIdentifierIsTotalPreorder();
      SortPermutes(fixedExtensions, ByIdentifier);
      SortSorted(fixedExtensions, ByIdentifier);
      forall e ensures Ties(r, e, ByIdentifier) == Ties(fixedExtensions, e, ByIdentifier) {
        SortStable(fixedExtensions, e, ByIdentifier);
      }
      if Valid() {
        SortByIdentifier(fixedExtensions);
        FixedIdentifiersSorted();
      }
    }

    /** PUT of one fixed entry: the entry with exactly this identifier gets
        flag 1 if the body value is truthy and 0 if not; nothing else changes. */
    method ToggleFixed(extension: string, blocked: Value) returns (r: Result<()>)
      modifies this
      ensures var i := FixedIndex(old(fixedExtensions), extension);
        if i == -1 then
          r == Err(NotFound) && fixedExtensions == old(fixedExtensions)
        else
          r == Ok(()) && fixedExtensions == old(fixedExtensions)[i := FixedExtension(extension, FlagOf(blocked))]
      ensures r == Err(NotFound) <==> extension !in FixedIds(old(fixedExtensions))
      ensures FixedIds(fixedExtensions) == FixedIds(old(fixedExtensions))
      ensures customExtensions == old(customExtensions)
      ensures old(Valid()) ==> Valid()
      ensures var i := FixedIndex(old(fixedExtensions), extension);
        0 <= i && old(fixedExtensions[i].blocked) == FlagOf(blocked) ==> fixedExtensions == old(fixedExtensions)
    {
      var i := FixedIndex(fixedExtensions, extension);
      if i == -1 {
        return Err(NotFound);
      }
      SetFlagConsistent(Snapshot(), i, FlagOf(blocked));
      fixedExtensions := fixedExtensions[i := FixedExtension(extension, FlagOf(blocked))];
      r := Ok(());
    }

    /** GET of the custom list: newest entry first, entries added at the same
        instant in stored order. The stored document is unchanged. */
    method ListCustom() returns (r: seq<CustomExtension>)
      ensures multiset(r) == multiset(customExtensions)
      ensures SortedBy(r, NewestFirst)
      ensures forall e :: Ties(r, e, NewestFirst) == Ties(customExtensions, e, NewestFirst)
    {
      r := Sort(customExtensions, NewestFirst);
      NewestFirstIsTotalPreorder();
      SortPermutes(customExtensions, NewestFirst);
      SortSorted(customExtensions, NewestFirst);
      forall e ensures Ties(r, e, NewestFirst) == Ties(customExtensions, e, NewestFirst) {
        SortStable(customExtensions, e, NewestFirst);
      }
    }

    /** POST of a custom identifier: the checks of `CheckAdd` in order; on
        success one entry with the normalised identifier and the time `now` is
        appended. A failure leaves the document as it was. */
    method AddCustom(input: Value, now: Timestamp) returns (r: Result<string>)
      requires !Truthy(input) || input.Str?
      modifies this
      ensures r == CheckAdd(old(Snapshot()), input)
      ensures fixedExtensions == old(fixedExtensions)
      ensures r.Err? ==> customExtensions == old(customExtensions)
      ensures r.Ok? ==> customExtensions == old(customExtensions) + [CustomExtension(r.value, now)]
      ensures old(Valid()) ==> Valid()
    {
      var d := Snapshot();
      r := CheckAdd(d, input);
      if r.Err? {
        return;
      }
      AddKeepsConsistent(d, input, now);
      customExtensions := d.customExtensions + [CustomExtension(r.value, now)];
      assert Snapshot() == Document(d.fixedExtensions, d.customExtensions + [CustomExtension(r.value, now)]);
    }

    /** DELETE of a custom identifier, compared as given (not normalised): the
        first entry with exactly this identifier is removed, the others keep
        their order. */
    method DeleteCustom(extension: string) returns (r: Result<()>)
      modifies this
      ensures var i := CustomIndex(old(customExtensions), extension);
        if i == -1 then
          r == Err(NotFound) && customExtensions == old(customExtensions)
        else
          r == Ok(()) && customExtensions == old(customExtensions)[..i] + old(customExtensions)[i + 1..]
      ensures r == Err(NotFound) <==> extension !in CustomIds(old(customExtensions))
      ensures fixedExtensions == old(fixedExtensions)
      ensures old(Valid()) ==> Valid()
      ensures old(Valid()) ==> extension !in CustomIds(customExtensions)
    {
      var i := CustomIndex(customExtensions, extension);
      if i == -1 {
        return Err(NotFound);
      }
      if Valid() {
        RemoveConsistent(Snapshot(), i);
      }
      customExtensions := customExtensions[..i] + customExtensions[i + 1..];
      r := Ok(());
    }

    /** GET of the blocked view: the blocked fixed identifiers in stored order,
        every custom identifier in stored order, and the two concatenated. On a
        consistent document no identifier appears twice in `all`. */
    method ListBlocked() returns (fixed: seq<string>, custom: seq<string>, all: seq<string>)
      ensures fixed == BlockedIds(fixedExtensions)
      ensures custom == CustomIds(customExtensions)
      ensures all == fixed + custom
      ensures forall x :: x in all <==>
        (x in custom || exists i :: 0 <= i < |fixedExtensions| && fixedExtensions[i].blocked == 1 && fixedExtensions[i].extension == x)
      ensures Valid() ==> Unique(all)
    {
      fixed := BlockedIds(fixedExtensions);
      custom := CustomIds(customExtensions);
      all := fixed + custom;
      if Valid() {
        assert Unique(FixedIds(fixedExtensions));
        BlockedIdsUnique(fixedExtensions);
        forall i, j | 0 <= i < j < |all| ensures all[i] != all[j] {
          if i < |fixed| <= j {
            assert all[i] in fixed;
            assert all[j] == custom[j - |fixed|];
            assert customExtensions[j - |fixed|] in customExtensions;
          }
        }
      }
    }
  }

  /** On a store holding the seven fixed identifiers, setting "exe" to blocked
      twice leaves the state of setting it once, and "exe" is then in the
      blocked view. */
  method ToggleTwiceSession(stored: Document) returns (once: Document, twice: Document)
    requires FixedIds(stored.fixedExtensions) == FixedIdentifiers
    ensures "exe" in BlockedIds(once.fixedExtensions)
    ensures twice == once
  {
    FixedPositions(stored.fixedExtensions);
    var store := new Store.Load(Some(stored));
    var on := store.ToggleFixed("exe", Bool(true));
    once := store.Snapshot();
    assert once.fixedExtensions[4] == FixedExtension("exe", 1);
    var onAgain := store.ToggleFixed("exe", Number(1.0));
    twice := store.Snapshot();
  }

  /** The path is compared as given: "EXE" is not found, and nothing changes. */
  method ToggleCaseSession(stored: Document) returns (missing: Result<()>, after: Document)
    requires FixedIds(stored.fixedExtensions) == FixedIdentifiers
    ensures missing == Err(NotFound)
    ensures after == stored
  {
    FixedPositions(stored.fixedExtensions);
    var store := new Store.Load(Some(stored));
    missing := store.ToggleFixed("EXE", Bool(false));
    after := store.Snapshot();
  }

  /** With only "exe" blocked and custom entries "sh" then "py", the combined
      view is exactly ["exe", "sh", "py"]; deleting "SH" finds nothing, deleting
      "sh" leaves ["py"]. */
  method BlockedSession(stored: Document, t0: Timestamp, t1: Timestamp)
    returns (all: seq<string>, miss: Result<()>, remaining: seq<CustomExtension>)
    requires BlockedIds(stored.fixedExtensions) == ["exe"]
    requires stored.customExtensions == [CustomExtension("sh", t0), CustomExtension("py", t1)]
    ensures all == ["exe", "sh", "py"]
    ensures miss == Err(NotFound)
    ensures remaining == [CustomExtension("py", t1)]
  {
    var store := new Store.Load(Some(stored));
    var blockedFixed, custom;
    blockedFixed, custom, all := store.ListBlocked();
    miss := store.DeleteCustom("SH");
    var hit := store.DeleteCustom("sh");
    remaining := store.customExtensions;
  }
}
