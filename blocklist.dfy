/** The extension-blocklist document: a fixed list of well-known identifiers,
    each with a blocked flag, and a custom list of user-added identifiers,
    each with the time it was added. */
module Blocklist {
  import opened Normalization
  import opened Search
  import opened Sorting
  import opened StringOrder
  import opened Json
  import opened FixedOrder

  /** The stored `blocked` flag: 0 or 1. */
  type Bit = b: int | b == 0 || b == 1

  /** An opaque, totally ordered instant; later instants are larger. */
  type Timestamp = int

  datatype FixedExtension = FixedExtension(extension: string, blocked: Bit)

  datatype CustomExtension = CustomExtension(extension: string, createdAt: Timestamp)

  datatype Document = Document(fixedExtensions: seq<FixedExtension>, customExtensions: seq<CustomExtension>)

  datatype Option<T> = None | Some(value: T)

  /** The failures the handlers report. */
  datatype Error =
    | Required         // "Extension is required"
    | Invalid          // "Invalid extension"
    | InFixed          // "Already in fixed extensions"
    | Full             // "Maximum 200 extensions"
    | Duplicate        // "Extension already exists"
    | NotFound         // "Extension not found" / "Not found"

  datatype Result<T> = Ok(value: T) | Err(error: Error)

  const FixedIdentifiers: seq<string> := ["bat", "cmd", "com", "cpl", "exe", "scr", "js"]
  const MaxCustom: nat := 200
  const MaxLength: nat := 20

  /** The HTTP status each failure is answered with. */
  function StatusCode(e: Error): (code: int)
    ensures code == 404 <==> e == NotFound
    ensures code == 400 || code == 404
  {
    if e == NotFound then 404 else 400
  }

  /** The identifiers of the fixed entries, in stored order. `CustomIds` is the
      same projection on the custom entries: the two entry types differ, and a
      shared higher-order projection would cost every proof that unfolds it. */
  function FixedIds(fixed: seq<FixedExtension>): (ids: seq<string>)
    ensures |ids| == |fixed|
    ensures forall i :: 0 <= i < |fixed| ==> ids[i] == fixed[i].extension
  {
    seq(|fixed|, i requires 0 <= i < |fixed| => fixed[i].extension)
  }

  /** The identifiers of the custom entries, in stored order
      (`customExtensions.map(e => e.extension)`). */
  function CustomIds(custom: seq<CustomExtension>): (ids: seq<string>)
    ensures |ids| == |custom|
    ensures forall i :: 0 <= i < |custom| ==> ids[i] == custom[i].extension
  {
    seq(|custom|, i requires 0 <= i < |custom| => custom[i].extension)
  }

  ghost predicate Unique(ids: seq<string>) {
    forall i, j :: 0 <= i < j < |ids| ==> ids[i] != ids[j]
  }

  /** An identifier the add operation can store: normalised, 1 to 20
      characters, and not one of the fixed identifiers. */
  ghost predicate Storable(id: string) {
    1 <= |id| <= MaxLength && IsNormalised(id) && id !in FixedIdentifiers
  }

  /** What the handlers keep true of the stored document: the fixed list holds
      the seven fixed identifiers in their seeded order; the custom list has at
      most 200 entries, no two with the same identifier, each storable. */
  ghost predicate Consistent(d: Document) {
    FixedIds(d.fixedExtensions) == FixedIdentifiers
    && |d.customExtensions| <= MaxCustom
    && Unique(CustomIds(d.customExtensions))
    && forall c :: c in d.customExtensions ==> Storable(c.extension)
  }

  /** The identifiers of the fixed entries whose flag is 1, in stored order. */
  function BlockedIds(fixed: seq<FixedExtension>): (ids: seq<string>)
    ensures |ids| <= |fixed|
    ensures forall x :: x in ids <==> exists i :: 0 <= i < |fixed| && fixed[i].blocked == 1 && fixed[i].extension == x
  {
    if fixed == [] then []
    else
      var rest := BlockedIds(fixed[1..]);
      assert forall i :: 1 <= i < |fixed| ==> fixed[i] == fixed[1..][i - 1];
      (if fixed[0].blocked == 1 then [fixed[0].extension] else []) + rest
  }

  /** The seeded document: the seven fixed identifiers, none blocked, and no
      custom entries. */
  function InitData(): (d: Document)
    ensures FixedIds(d.fixedExtensions) == FixedIdentifiers
    ensures BlockedIds(d.fixedExtensions) == []
    ensures d.customExtensions == []
    ensures Consistent(d)
  {
    var fixed := seq(|FixedIdentifiers|, i requires 0 <= i < |FixedIdentifiers| => FixedExtension(FixedIdentifiers[i], 0));
    assert FixedIds(fixed) == FixedIdentifiers;
    BlockedIdsNone(fixed);
    Document(fixed, [])
  }

  /** No entry flagged, no identifier in the blocked view. */
  lemma {:induction false} BlockedIdsNone(fixed: seq<FixedExtension>)
    requires forall i :: 0 <= i < |fixed| ==> fixed[i].blocked == 0
    ensures BlockedIds(fixed) == []
  {
    if fixed != [] {
      BlockedIdsNone(fixed[1..]);
    }
  }

  /** What the store holds after a read: a missing or unreadable file is
      replaced by the seeded document. */
  function Loaded(stored: Option<Document>): (d: Document)
    ensures stored.None? ==> d == InitData() && Consistent(d)
    ensures stored.Some? ==> d == stored.value
  {
    if stored.Some? then stored.value else InitData()
  }

  /** The position of the first fixed entry with exactly this identifier, or -1. */
  function FixedIndex(fixed: seq<FixedExtension>, extension: string): (i: int)
    ensures -1 <= i < |fixed|
    ensures i == -1 <==> extension !in FixedIds(fixed)
    ensures 0 <= i ==> fixed[i].extension == extension
    ensures 0 <= i ==> forall k :: 0 <= k < i ==> fixed[k].extension != extension
  {
    FindIndex(fixed, (e: FixedExtension) => e.extension == extension)
  }

  /** The position of the first custom entry with exactly this identifier, or -1. */
  function CustomIndex(custom: seq<CustomExtension>, extension: string): (i: int)
    ensures -1 <= i < |custom|
    ensures i == -1 <==> extension !in CustomIds(custom)
    ensures 0 <= i ==> custom[i].extension == extension
    ensures 0 <= i ==> extension !in CustomIds(custom[..i])
  {
    FindIndex(custom, (e: CustomExtension) => e.extension == extension)
  }

  /** In the seeded order "exe" is the fifth fixed entry, and no fixed entry is
      spelt "EXE". */
  lemma FixedPositions(fixed: seq<FixedExtension>)
    requires FixedIds(fixed) == FixedIdentifiers
    ensures FixedIndex(fixed, "exe") == 4
    ensures FixedIndex(fixed, "EXE") == -1
  {
    assert FixedIds(fixed)[4] == "exe";
    assert "EXE" !in FixedIdentifiers;
  }

  /** The flag `blocked ? 1 : 0` stores. */
  function FlagOf(blocked: Value): (b: Bit)
    ensures b == 1 <==> Truthy(blocked)
  {
    if Truthy(blocked) then 1 else 0
  }

  /** The add handler's checks, in its order, before it appends; on success
      the identifier it stores. A missing or empty input is refused first;
      every later check sees only the normalised identifier. */
  function CheckAdd(d: Document, input: Value): (r: Result<string>)
    requires !Truthy(input) || input.Str?
    ensures r == Err(Required) <==> !Truthy(input)
    ensures Truthy(input) ==> r == CheckNormalised(d, Normalize(input.s))
  {
    if !Truthy(input) then Err(Required) else CheckNormalised(d, Normalize(input.s))
  }

  /** The checks that follow normalisation, on the normalised identifier `n`.
      Each failure is reported exactly when every earlier check has passed, so
      a failure names the first check that fails; when all pass, `n` is what
      gets stored. */
  function CheckNormalised(d: Document, n: string): (r: Result<string>)
    ensures r == Err(Invalid) <==> !(1 <= |n| <= MaxLength)
    ensures r == Err(InFixed) <==>
      1 <= |n| <= MaxLength && n in FixedIds(d.fixedExtensions)
    ensures r == Err(Full) <==>
      1 <= |n| <= MaxLength && n !in FixedIds(d.fixedExtensions)
      && |d.customExtensions| >= MaxCustom
    ensures r == Err(Duplicate) <==>
      1 <= |n| <= MaxLength && n !in FixedIds(d.fixedExtensions)
      && |d.customExtensions| < MaxCustom && n in CustomIds(d.customExtensions)
    ensures r.Ok? ==> r.value == n
    ensures r != Err(Required) && r != Err(NotFound)
  {
    if n == [] || |n| > MaxLength then Err(Invalid)
    else if n in FixedIds(d.fixedExtensions) then Err(InFixed)
    else if |d.customExtensions| >= MaxCustom then Err(Full)
    else if n in CustomIds(d.customExtensions) then Err(Duplicate)
    else Ok(n)
  }

  /** On a consistent document an accepted identifier can be stored and is
      new; once 200 entries are stored nothing more is accepted. */
  lemma CheckAddAccepts(d: Document, input: Value)
    requires !Truthy(input) || input.Str?
    requires Consistent(d)
    ensures CheckAdd(d, input).Ok? ==>
      Storable(CheckAdd(d, input).value)
      && CheckAdd(d, input).value !in CustomIds(d.customExtensions)
      && |d.customExtensions| < MaxCustom
    ensures |d.customExtensions| >= MaxCustom ==> !CheckAdd(d, input).Ok?
  {
  }

  lemma FixedIdentifiersStorableLength(x: string)
    requires x in FixedIdentifiers
    ensures 1 <= |x| <= MaxLength
  {
  }

  /** Any spelling that normalises to a fixed identifier ("EXE", ".exe",
      " Exe ") is refused as InFixed, whatever the custom list holds. */
  lemma AddFixedCollision(d: Document, s: string)
    requires FixedIds(d.fixedExtensions) == FixedIdentifiers
    requires s != "" && Normalize(s) in FixedIdentifiers
    ensures CheckAdd(d, Str(s)) == Err(InFixed)
  {
    var n := Normalize(s);
    FixedIdentifiersStorableLength(n);
    assert n in FixedIds(d.fixedExtensions);
    assert Truthy(Str(s)) && Str(s).s == s;
  }

  /** On a consistent document with room, an input whose normalised form is
      storable and new is accepted. */
  lemma AddAcceptsNew(d: Document, s: string)
    requires Consistent(d) && |d.customExtensions| < MaxCustom
    requires s != "" && Storable(Normalize(s)) && Normalize(s) !in CustomIds(d.customExtensions)
    ensures CheckAdd(d, Str(s)) == Ok(Normalize(s))
  {
    assert Truthy(Str(s)) && Str(s).s == s;
  }

  /** Two non-empty inputs with the same normalised form get the same answer:
      ".SH", "sh" and "  sh " are one identifier to the add operation. */
  lemma AddSeesOnlyNormalForm(d: Document, s: string, t: string)
    requires s != "" && t != ""
    requires Normalize(s) == Normalize(t)
    ensures CheckAdd(d, Str(s)) == CheckAdd(d, Str(t))
  {
  }

  /** Appending an accepted identifier keeps the document consistent. */
  lemma AppendConsistent(d: Document, id: string, now: Timestamp)
    requires Consistent(d)
    requires Storable(id) && id !in CustomIds(d.customExtensions)
    requires |d.customExtensions| < MaxCustom
    ensures Consistent(Document(d.fixedExtensions, d.customExtensions + [CustomExtension(id, now)]))
  {
    var c := d.customExtensions + [CustomExtension(id, now)];
    var ids := CustomIds(c);
    assert ids == CustomIds(d.customExtensions) + [id];
    forall i, j | 0 <= i < j < |ids| ensures ids[i] != ids[j] {
      if j == |ids| - 1 {
        assert ids[i] in CustomIds(d.customExtensions);
      }
    }
  }

  /** Removing the entry at `i` keeps the document consistent, and no entry
      with that identifier is left. */
  lemma RemoveConsistent(d: Document, i: nat)
    requires Consistent(d)
    requires i < |d.customExtensions|
    ensures var c := d.customExtensions[..i] + d.customExtensions[i + 1..];
      Consistent(Document(d.fixedExtensions, c))
      && d.customExtensions[i].extension !in CustomIds(c)
  {
    var old_ := d.customExtensions;
    var c := old_[..i] + old_[i + 1..];
    var ids := CustomIds(c);
    var oldIds := CustomIds(old_);
    assert forall k :: 0 <= k < |c| ==> c[k] == old_[if k < i then k else k + 1];
    forall k, l | 0 <= k < l < |ids| ensures ids[k] != ids[l] {
      assert ids[k] == oldIds[if k < i then k else k + 1];
      assert ids[l] == oldIds[if l < i then l else l + 1];
    }
    forall k | 0 <= k < |ids| ensures ids[k] != old_[i].extension {
      assert ids[k] == oldIds[if k < i then k else k + 1];
    }
    forall x | x in c ensures Storable(x.extension) {
      var k :| 0 <= k < |c| && c[k] == x;
      assert old_[if k < i then k else k + 1] in old_;
    }
  }

  /** A successful add keeps the document consistent. */
  lemma AddKeepsConsistent(d: Document, input: Value, now: Timestamp)
    requires !Truthy(input) || input.Str?
    requires CheckAdd(d, input).Ok?
    ensures Consistent(d) ==>
      Consistent(Document(d.fixedExtensions, d.customExtensions + [CustomExtension(CheckAdd(d, input).value, now)]))
  {
    if Consistent(d) {
      CheckAddAccepts(d, input);
      AppendConsistent(d, CheckAdd(d, input).value, now);
    }
  }

  /** Setting the flag of the entry at `i` keeps the identifiers, and with
      them consistency. */
  lemma SetFlagConsistent(d: Document, i: nat, b: Bit)
    requires i < |d.fixedExtensions|
    ensures var f := d.fixedExtensions[i := FixedExtension(d.fixedExtensions[i].extension, b)];
      FixedIds(f) == FixedIds(d.fixedExtensions)
      && (Consistent(d) ==> Consistent(Document(f, d.customExtensions)))
  {
    var f := d.fixedExtensions[i := FixedExtension(d.fixedExtensions[i].extension, b)];
    assert forall k :: 0 <= k < |f| ==> FixedIds(f)[k] == FixedIds(d.fixedExtensions)[k];
  }

  /** The blocked identifiers of a concatenation are the concatenation of the
      blocked identifiers: the filter keeps the stored order. */
  lemma {:induction false} BlockedIdsAppend(a: seq<FixedExtension>, b: seq<FixedExtension>)
    ensures BlockedIds(a + b) == BlockedIds(a) + BlockedIds(b)
  {
    if a == [] {
      assert a + b == b;
    } else {
      assert (a + b)[0] == a[0] && (a + b)[1..] == a[1..] + b;
      BlockedIdsAppend(a[1..], b);
      var head := if a[0].blocked == 1 then [a[0].extension] else [];
      assert BlockedIds(a + b) == head + BlockedIds(a[1..] + b);
      assert BlockedIds(a) == head + BlockedIds(a[1..]);
    }
  }

  /** With distinct identifiers in the fixed list, the blocked ones are distinct. */
  lemma {:induction false} BlockedIdsUnique(fixed: seq<FixedExtension>)
    requires Unique(FixedIds(fixed))
    ensures Unique(BlockedIds(fixed))
  {
    if fixed != [] {
      var tail := fixed[1..];
      assert Unique(FixedIds(tail)) by {
        forall i, j | 0 <= i < j < |tail| ensures FixedIds(tail)[i] != FixedIds(tail)[j] {
          assert FixedIds(fixed)[i + 1] != FixedIds(fixed)[j + 1];
        }
      }
      BlockedIdsUnique(tail);
      if fixed[0].blocked == 1 {
        var b := BlockedIds(fixed);
        var rest := BlockedIds(tail);
        forall k | 0 <= k < |rest| ensures rest[k] != fixed[0].extension {
          assert rest[k] in rest;
          var m :| 0 <= m < |tail| && tail[m].blocked == 1 && tail[m].extension == rest[k];
          assert FixedIds(fixed)[0] != FixedIds(fixed)[m + 1];
        }
      }
    }
  }

  /** Sorting order of the fixed listing: by identifier, ascending. */
  predicate ByIdentifier(a: FixedExtension, b: FixedExtension) {
    LexLe(a.extension, b.extension)
  }

  /** Sorting order of the custom listing: newest first. */
  predicate NewestFirst(a: CustomExtension, b: CustomExtension) {
    a.createdAt >= b.createdAt
  }

  lemma ByIdentifierIsTotalPreorder()
    ensures IsTotalPreorder(ByIdentifier)
  {
    forall a: FixedExtension, b: FixedExtension ensures ByIdentifier(a, b) || ByIdentifier(b, a) {
      LexLeTotal(a.extension, b.extension);
    }
    forall a: FixedExtension, b: FixedExtension, c: FixedExtension | ByIdentifier(a, b) && ByIdentifier(b, c)
      ensures ByIdentifier(a, c)
    {
      LexLeTransitive(a.extension, b.extension, c.extension);
    }
  }

  lemma NewestFirstIsTotalPreorder()
    ensures IsTotalPreorder(NewestFirst)
  {
  }

  /** Sorting entries by identifier sorts their identifiers. */
  lemma {:induction false} InsertByIdentifier(x: FixedExtension, s: seq<FixedExtension>)
    ensures FixedIds(Insert(x, s, ByIdentifier)) == Insert(x.extension, FixedIds(s), LexLe)
  {
    if s != [] && !ByIdentifier(x, s[0]) {
      InsertByIdentifier(x, s[1..]);
      assert FixedIds(s)[1..] == FixedIds(s[1..]);
      var t := Insert(x, s[1..], ByIdentifier);
      assert FixedIds([s[0]] + t) == [s[0].extension] + FixedIds(t);
    } else {
      assert FixedIds([x] + s) == [x.extension] + FixedIds(s);
    }
  }

  lemma {:induction false} SortByIdentifier(s: seq<FixedExtension>)
    ensures FixedIds(Sort(s, ByIdentifier)) == Sort(FixedIds(s), LexLe)
  {
    if s != [] {
      SortByIdentifier(s[1..]);
      InsertByIdentifier(s[0], Sort(s[1..], ByIdentifier));
      assert FixedIds(s)[1..] == FixedIds(s[1..]);
    }
  }

  /** The order the fixed listing shows the seven identifiers in. */
  const FixedListingOrder: seq<string> := ["bat", "cmd", "com", "cpl", "exe", "js", "scr"]

  lemma FixedIdentifiersSorted()
    ensures Sort(FixedIdentifiers, LexLe) == FixedListingOrder
  {
    SevenIdentifiersSorted();
  }
}
