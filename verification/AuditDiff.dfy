/** BeforeAfterDiff.tsx: the entries of a diff, and when they are a patch. */
module AuditDiff {
  import opened Wrappers
  import Json

  /** What `record?.[key]` reads: nothing, a JSON value of the record's own, or a property that every
      object inherits. */
  datatype Value = Undefined | Own(json: Json.Value) | Inherited(name: string)

  /** A record's own properties in order; a property may hold undefined. */
  datatype Property = Property(key: string, value: Value)

  type Record = Option<seq<Property>>

  datatype ChangeType = Added | Removed | Modified | Unchanged

  datatype DiffEntry = DiffEntry(key: string, beforeValue: Value, afterValue: Value, changeType: ChangeType,
    isNested: bool)

  /** The properties of Object.prototype. All hold functions except __proto__, which holds an empty object. */
  const INHERITED: set<string> := {
    "constructor", "hasOwnProperty", "isPrototypeOf", "propertyIsEnumerable", "toLocaleString", "toString", "valueOf",
    "__proto__", "__defineGetter__", "__defineSetter__", "__lookupGetter__", "__lookupSetter__"
  }

  predicate IsRecord(r: Record) {
    r.Some? ==>
      && (forall i | 0 <= i < |r.value| :: !r.value[i].value.Inherited?)
      && (forall i, j | 0 <= i < j < |r.value| :: r.value[i].key != r.value[j].key)
  }

  function Keys(r: Record): (keys: seq<string>)
    ensures r.None? ==> keys == []
    ensures r.Some? ==> |keys| == |r.value| && forall i | 0 <= i < |keys| :: keys[i] == r.value[i].key
  {
    if r.None? then [] else seq(|r.value|, i requires 0 <= i < |r.value| => r.value[i].key)
  }

  /** The record's own value of a key. */
  function OwnValue(r: Record, key: string): Value
    decreases if r.Some? then |r.value| else 0
  {
    if r.None? || r.value == [] then Undefined
    else
      var last := r.value[|r.value| - 1];
      if last.key == key then last.value else OwnValue(Some(r.value[..|r.value| - 1]), key)
  }

  function Read(r: Record, key: string): Value {
    if r.Some? && key !in Keys(r) && key in INHERITED then Inherited(key) else OwnValue(r, key)
  }

  /** JSON.stringify, which gives undefined for undefined and for functions. */
  function Text(v: Value): Option<string> {
    match v
    case Undefined => None
    case Own(json) => Some(Json.Stringify(json))
    case Inherited(name) => if name == "__proto__" then Some("{}") else None
  }

  predicate IsObject(v: Value) {
    match v
    case Undefined => false
    case Own(json) => json.Object? || json.Array?
    case Inherited(name) => name == "__proto__"
  }

  function Classify(before: Value, after: Value): ChangeType {
    if before.Undefined? && !after.Undefined? then Added
    else if !before.Undefined? && after.Undefined? then Removed
    else if Text(before) != Text(after) then Modified
    else Unchanged
  }

  function EntryOf(before: Record, after: Record, key: string): DiffEntry {
    var b, a := Read(before, key), Read(after, key);
    DiffEntry(key, b, a, Classify(b, a), IsObject(b) || IsObject(a))
  }

  ghost predicate Repeatless(keys: seq<string>) {
    forall i, j | 0 <= i < j < |keys| :: keys[i] != keys[j]
  }

  ghost predicate SameKeys(a: seq<string>, b: seq<string>) {
    forall k :: k in a <==> k in b
  }

  lemma OneMoreKey(keys: seq<string>, spread: seq<string>, i: nat)
    requires i < |spread| && Repeatless(keys) && SameKeys(keys, spread[..i])
    ensures SameKeys(if spread[i] in keys then keys else keys + [spread[i]], spread[..i + 1])
    ensures Repeatless(if spread[i] in keys then keys else keys + [spread[i]])
  {
    assert spread[..i + 1] == spread[..i] + [spread[i]];
  }

  /** A Set built from a list keeps each key where it first occurs. */
  method AllKeys(before: Record, after: Record) returns (keys: seq<string>)
    ensures SameKeys(keys, Keys(before) + Keys(after)) && Repeatless(keys)
  {
    var spread := Keys(before) + Keys(after);
    keys := [];
    var i := 0;
    while i < |spread|
      invariant i <= |spread|
      invariant SameKeys(keys, spread[..i]) && Repeatless(keys)
    {
      OneMoreKey(keys, spread, i);
      if spread[i] !in keys {
        keys := keys + [spread[i]];
      }
      i := i + 1;
    }
    assert spread[..i] == spread;
  }

  /** One entry for each key of either record, and none twice. */
  ghost predicate IsDiff(before: Record, after: Record, entries: seq<DiffEntry>) {
    && (forall i | 0 <= i < |entries| :: entries[i] == EntryOf(before, after, entries[i].key))
    && (forall i, j | 0 <= i < j < |entries| :: entries[i].key != entries[j].key)
    && (forall k :: (exists i :: 0 <= i < |entries| && entries[i].key == k) <==> k in Keys(before) || k in Keys(after))
  }

  /** The "show only changed" filter. */
  function ChangedOnly(entries: seq<DiffEntry>): seq<DiffEntry> {
    if entries == [] then []
    else
      var last := entries[|entries| - 1];
      ChangedOnly(entries[..|entries| - 1]) + (if last.changeType != Unchanged then [last] else [])
  }

  /** The value a key has once the entries are applied to a record, and once they are undone. */
  function Patched(r: Record, entries: seq<DiffEntry>, key: string): Value {
    if entries == [] then OwnValue(r, key)
    else
      var last := entries[|entries| - 1];
      if last.key == key then last.afterValue else Patched(r, entries[..|entries| - 1], key)
  }

  function Unpatched(r: Record, entries: seq<DiffEntry>, key: string): Value {
    if entries == [] then OwnValue(r, key)
    else
      var last := entries[|entries| - 1];
      if last.key == key then last.beforeValue else Unpatched(r, entries[..|entries| - 1], key)
  }

  /** The record has no such property of its own, but inherits one of that name. */
  predicate Inherits(r: Record, key: string) {
    key in INHERITED && r.Some? && key !in Keys(r)
  }

  /** The key belongs to one record, and the other inherits it. */
  predicate InheritedAt(before: Record, after: Record, key: string) {
    (key in Keys(before) && Inherits(after, key)) || (key in Keys(after) && Inherits(before, key))
  }

  /** Some key of one record is missing from the other, which inherits a property of that name. */
  ghost predicate ReadsInherited(before: Record, after: Record) {
    exists key :: InheritedAt(before, after, key)
  }

  lemma {:induction false} OwnValueIsOwn(r: Record, key: string)
    requires IsRecord(r)
    ensures !OwnValue(r, key).Inherited?
    ensures key !in Keys(r) ==> OwnValue(r, key) == Undefined
    decreases if r.Some? then |r.value| else 0
  {
    if r.Some? && r.value != [] {
      var front := r.value[..|r.value| - 1];
      OwnValueIsOwn(Some(front), key);
      assert Keys(r)[|r.value| - 1] == r.value[|r.value| - 1].key;
      if key in Keys(Some(front)) {
        var i :| 0 <= i < |front| && Keys(Some(front))[i] == key;
        assert Keys(r)[i] == key;
      }
    }
  }

  /** A record gives each of its properties the value listed for it. */
  lemma {:induction false} OwnValueAt(r: seq<Property>, i: nat)
    requires IsRecord(Some(r)) && i < |r|
    ensures OwnValue(Some(r), r[i].key) == r[i].value
  {
    if i < |r| - 1 {
      OwnValueAt(r[..|r| - 1], i);
    }
  }

  lemma {:induction false} PatchedAt(r: Record, entries: seq<DiffEntry>, key: string, i: nat)
    requires i < |entries| && entries[i].key == key
    requires forall i, j | 0 <= i < j < |entries| :: entries[i].key != entries[j].key
    ensures Patched(r, entries, key) == entries[i].afterValue && Unpatched(r, entries, key) == entries[i].beforeValue
  {
    if i < |entries| - 1 {
      PatchedAt(r, entries[..|entries| - 1], key, i);
    }
  }

  lemma {:induction false} PatchedElsewhere(r: Record, entries: seq<DiffEntry>, key: string)
    requires forall i | 0 <= i < |entries| :: entries[i].key != key
    ensures Patched(r, entries, key) == OwnValue(r, key) && Unpatched(r, entries, key) == OwnValue(r, key)
  {
    if entries != [] {
      PatchedElsewhere(r, entries[..|entries| - 1], key);
    }
  }

  lemma PatchedSnoc(r: Record, entries: seq<DiffEntry>, last: DiffEntry, key: string)
    ensures Patched(r, entries + [last], key) == if last.key == key then last.afterValue else Patched(r, entries, key)
    ensures Unpatched(r, entries + [last], key)
         == if last.key == key then last.beforeValue else Unpatched(r, entries, key)
  {
    assert (entries + [last])[..|entries|] == entries;
  }

  /** The filter keeps the patch at a key whose entry it keeps. */
  lemma {:induction false} ChangedEntryKept(r: Record, entries: seq<DiffEntry>, key: string)
    requires forall i | 0 <= i < |entries| && entries[i].key == key :: entries[i].changeType != Unchanged
    ensures Patched(r, ChangedOnly(entries), key) == Patched(r, entries, key)
    ensures Unpatched(r, ChangedOnly(entries), key) == Unpatched(r, entries, key)
  {
    if entries != [] {
      var front, last := entries[..|entries| - 1], entries[|entries| - 1];
      ChangedEntryKept(r, front, key);
      assert entries == front + [last];
      PatchedSnoc(r, front, last, key);
      if last.changeType != Unchanged {
        PatchedSnoc(r, ChangedOnly(front), last, key);
      } else {
        assert entries[|entries| - 1] == last && last.key != key;
        assert ChangedOnly(entries) == ChangedOnly(front) + [] == ChangedOnly(front);
      }
    }
  }

  lemma {:induction false} ChangedOnlyMembers(entries: seq<DiffEntry>, e: DiffEntry)
    requires e in ChangedOnly(entries)
    ensures e in entries && e.changeType != Unchanged
  {
    var front := entries[..|entries| - 1];
    if e in ChangedOnly(front) {
      ChangedOnlyMembers(front, e);
    }
  }

  /** The filter leaves the record's own value at a key whose entry it drops. */
  lemma UnchangedEntryDropped(r: Record, entries: seq<DiffEntry>, i: nat)
    requires forall i, j | 0 <= i < j < |entries| :: entries[i].key != entries[j].key
    requires i < |entries| && entries[i].changeType == Unchanged
    ensures Patched(r, ChangedOnly(entries), entries[i].key) == OwnValue(r, entries[i].key)
    ensures Unpatched(r, ChangedOnly(entries), entries[i].key) == OwnValue(r, entries[i].key)
  {
    var changed := ChangedOnly(entries);
    forall m | 0 <= m < |changed| ensures changed[m].key != entries[i].key {
      ChangedOnlyMembers(entries, changed[m]);
      var j :| 0 <= j < |entries| && entries[j] == changed[m];
      assert j != i;
    }
    PatchedElsewhere(r, changed, entries[i].key);
  }

  /** What the patch and its undoing give at one key. */
  lemma PatchesAt(before: Record, after: Record, entries: seq<DiffEntry>, key: string)
    requires IsRecord(before) && IsRecord(after) && IsDiff(before, after, entries)
    ensures
      var entered := key in Keys(before) || key in Keys(after);
      && Patched(before, entries, key) == (if entered then Read(after, key) else OwnValue(after, key))
      && Unpatched(after, entries, key) == (if entered then Read(before, key) else OwnValue(before, key))
  {
    OwnValueIsOwn(before, key);
    OwnValueIsOwn(after, key);
    if key in Keys(before) || key in Keys(after) {
      var i :| 0 <= i < |entries| && entries[i].key == key;
      PatchedAt(before, entries, key, i);
      PatchedAt(after, entries, key, i);
    } else {
      PatchedElsewhere(before, entries, key);
      PatchedElsewhere(after, entries, key);
    }
  }

  predicate RestoresAt(before: Record, after: Record, entries: seq<DiffEntry>, key: string) {
    && Patched(before, entries, key) == OwnValue(after, key)
    && Unpatched(after, entries, key) == OwnValue(before, key)
  }

  ghost predicate RestoresBoth(before: Record, after: Record, entries: seq<DiffEntry>) {
    forall key :: RestoresAt(before, after, entries, key)
  }

  /** At one key the patch is right both ways exactly when neither side reads an inherited property. */
  lemma RestoresAtExactlyWhen(before: Record, after: Record, entries: seq<DiffEntry>, key: string)
    requires IsRecord(before) && IsRecord(after) && IsDiff(before, after, entries)
    ensures RestoresAt(before, after, entries, key) <==> !InheritedAt(before, after, key)
  {
    PatchesAt(before, after, entries, key);
    OwnValueIsOwn(before, key);
    OwnValueIsOwn(after, key);
  }

  /** Applying the entries to `before` gives `after`, and undoing them from `after` gives `before`,
      exactly when no key one side lacks is a name it inherits. */
  lemma DiffIsAPatchExactlyWhen(before: Record, after: Record, entries: seq<DiffEntry>)
    requires IsRecord(before) && IsRecord(after) && IsDiff(before, after, entries)
    ensures RestoresBoth(before, after, entries) <==> !ReadsInherited(before, after)
  {
    forall key ensures RestoresAt(before, after, entries, key) <==> !InheritedAt(before, after, key) {
      RestoresAtExactlyWhen(before, after, entries, key);
    }
  }

  /** Of two values no side inherits, 'unchanged' means the same value, member order included. */
  lemma UnchangedExactlyWhenEqual(before: Value, after: Value)
    requires !before.Inherited? && !after.Inherited?
    ensures Classify(before, after) == Unchanged <==> before == after
  {
    if before.Own? && after.Own? {
      Json.StringifyInjective(before.json, after.json);
    }
  }

  /** What an entry says, at a key neither side inherits, in terms of the values the two records hold. */
  ghost predicate Reports(before: Record, after: Record, e: DiffEntry) {
    var b, a := OwnValue(before, e.key), OwnValue(after, e.key);
    && e.beforeValue == b && e.afterValue == a
    && (e.changeType == Added <==> b == Undefined && a != Undefined)
    && (e.changeType == Removed <==> b != Undefined && a == Undefined)
    && (e.changeType == Modified <==> b != Undefined && a != Undefined && b != a)
    && (e.changeType == Unchanged <==> b == a)
    && (e.isNested <==>
          || (b.Own? && (b.json.Object? || b.json.Array?))
          || (a.Own? && (a.json.Object? || a.json.Array?)))
  }

  /** Every entry of a diff whose key neither side inherits reports the change between the two values. */
  lemma EntriesReport(before: Record, after: Record, entries: seq<DiffEntry>, i: nat)
    requires IsRecord(before) && IsRecord(after) && IsDiff(before, after, entries) && i < |entries|
    requires !Inherits(before, entries[i].key) && !Inherits(after, entries[i].key)
    ensures Reports(before, after, entries[i])
  {
    var key := entries[i].key;
    OwnValueIsOwn(before, key);
    OwnValueIsOwn(after, key);
    assert entries[i] == EntryOf(before, after, key);
    UnchangedExactlyWhenEqual(OwnValue(before, key), OwnValue(after, key));
  }

  lemma AllReport(before: Record, after: Record, entries: seq<DiffEntry>)
    requires IsDiff(before, after, entries)
    ensures IsRecord(before) && IsRecord(after) ==> forall i | 0 <= i < |entries| ::
      !Inherits(before, entries[i].key) && !Inherits(after, entries[i].key) ==> Reports(before, after, entries[i])
  {
    if IsRecord(before) && IsRecord(after) {
      forall i | 0 <= i < |entries| && !Inherits(before, entries[i].key) && !Inherits(after, entries[i].key)
        ensures Reports(before, after, entries[i])
      {
        EntriesReport(before, after, entries, i);
      }
    }
  }

  /** Object.prototype prints like an empty object, so an own empty object under this name looks the same. */
  predicate PrintsAsPrototype(key: string, json: Json.Value) {
    key == "__proto__" && json == Json.Object([])
  }

  /** At a key one side inherits, the entry holds the inherited property as that side's value. */
  lemma InheritedEntries(before: Record, after: Record, entries: seq<DiffEntry>, i: nat)
    requires IsDiff(before, after, entries) && i < |entries|
    ensures Inherits(before, entries[i].key) ==> entries[i].beforeValue == Inherited(entries[i].key)
    ensures Inherits(after, entries[i].key) ==> entries[i].afterValue == Inherited(entries[i].key)
    ensures Inherits(before, entries[i].key) && entries[i].afterValue == Undefined ==>
      entries[i].changeType == Removed && (entries[i].isNested <==> entries[i].key == "__proto__")
    ensures Inherits(after, entries[i].key) && entries[i].beforeValue == Undefined ==>
      entries[i].changeType == Added && (entries[i].isNested <==> entries[i].key == "__proto__")
    ensures Inherits(before, entries[i].key) && entries[i].afterValue.Own? ==>
      var same := PrintsAsPrototype(entries[i].key, entries[i].afterValue.json);
      entries[i].changeType == if same then Unchanged else Modified
    ensures Inherits(after, entries[i].key) && entries[i].beforeValue.Own? ==>
      var same := PrintsAsPrototype(entries[i].key, entries[i].beforeValue.json);
      entries[i].changeType == if same then Unchanged else Modified
  {
    assert entries[i] == EntryOf(before, after, entries[i].key);
    Json.LiteralsPrintAsTheyAreWritten();
    if entries[i].beforeValue.Own? {
      Json.StringifyInjective(entries[i].beforeValue.json, Json.Object([]));
    }
    if entries[i].afterValue.Own? {
      Json.StringifyInjective(entries[i].afterValue.json, Json.Object([]));
    }
  }

  method CalculateDiff(before: Record, after: Record) returns (entries: seq<DiffEntry>)
    ensures IsDiff(before, after, entries)
    ensures IsRecord(before) && IsRecord(after) ==> forall i | 0 <= i < |entries| ::
      !Inherits(before, entries[i].key) && !Inherits(after, entries[i].key) ==> Reports(before, after, entries[i])
  {
    entries := [];
    var keys := AllKeys(before, after);
    var i := 0;
    while i < |keys|
      invariant i == |entries| <= |keys|
      invariant forall j | 0 <= j < i :: entries[j] == EntryOf(before, after, keys[j])
    {
      var b, a := Read(before, keys[i]), Read(after, keys[i]);
      var changeType;
      if b.Undefined? && !a.Undefined? {
        changeType := Added;
      } else if !b.Undefined? && a.Undefined? {
        changeType := Removed;
      } else if Text(b) != Text(a) {
        changeType := Modified;
      } else {
        changeType := Unchanged;
      }
      entries := entries + [DiffEntry(keys[i], b, a, changeType, IsObject(b) || IsObject(a))];
      i := i + 1;
    }
    forall k
      ensures (exists j :: 0 <= j < |entries| && entries[j].key == k) <==> k in Keys(before) || k in Keys(after)
    {
      if k in keys {
        var j :| 0 <= j < |keys| && keys[j] == k;
        assert entries[j].key == k;
      }
    }
    AllReport(before, after, entries);
  }

  /** At a key whose entry the filter drops, the two records have the same value of their own exactly when
      neither inherits it. */
  lemma DroppedAt(before: Record, after: Record, key: string)
    requires IsRecord(before) && IsRecord(after) && (key in Keys(before) || key in Keys(after))
    requires EntryOf(before, after, key).changeType == Unchanged
    ensures OwnValue(before, key) == OwnValue(after, key) <==> !InheritedAt(before, after, key)
  {
    OwnValueIsOwn(before, key);
    OwnValueIsOwn(after, key);
    if !InheritedAt(before, after, key) {
      UnchangedExactlyWhenEqual(Read(before, key), Read(after, key));
    }
  }

  lemma FilteredAtExactlyWhen(before: Record, after: Record, entries: seq<DiffEntry>, key: string)
    requires IsRecord(before) && IsRecord(after) && IsDiff(before, after, entries)
    ensures RestoresAt(before, after, ChangedOnly(entries), key) <==> !InheritedAt(before, after, key)
  {
    if i :| 0 <= i < |entries| && entries[i].key == key && entries[i].changeType == Unchanged {
      UnchangedEntryDropped(before, entries, i);
      UnchangedEntryDropped(after, entries, i);
      DroppedAt(before, after, key);
    } else {
      ChangedEntryKept(before, entries, key);
      ChangedEntryKept(after, entries, key);
      RestoresAtExactlyWhen(before, after, entries, key);
    }
  }

  /** The entries left by the filter are a patch both ways exactly when all the entries are. */
  lemma ChangedEntriesSuffice(before: Record, after: Record, entries: seq<DiffEntry>)
    requires IsRecord(before) && IsRecord(after) && IsDiff(before, after, entries)
    ensures RestoresBoth(before, after, ChangedOnly(entries)) <==> !ReadsInherited(before, after)
  {
    forall key ensures RestoresAt(before, after, ChangedOnly(entries), key) <==> !InheritedAt(before, after, key) {
      FilteredAtExactlyWhen(before, after, entries, key);
    }
  }

  /** Two orders of the same members print differently, so a reordered object shows as modified. */
  lemma ReorderedMembersShowAsModified(a: Json.Member, b: Json.Member)
    requires a != b
    ensures Classify(Own(Json.Object([a, b])), Own(Json.Object([b, a]))) == Modified
  {
    Json.StringifyInjective(Json.Object([a, b]), Json.Object([b, a]));
    assert [a, b][0] != [b, a][0];
  }

  /** An added `toString` shows as modified from the inherited function. */
  lemma AddedToStringShowsAsModified(json: Json.Value)
    ensures EntryOf(Some([]), Some([Property("toString", Own(json))]), "toString").changeType == Modified
    ensures EntryOf(None, Some([Property("toString", Own(json))]), "toString").changeType == Added
  {
    var after := Some([Property("toString", Own(json))]);
    assert Keys(after)[0] == "toString";
  }
}
