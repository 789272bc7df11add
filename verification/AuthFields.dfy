/** The fields of an auth request, with a snapshot that is copied only when it is about to be overwritten. */
module AuthFields {
  import opened Options

  datatype Field = Field(key: string, value: string)

  ghost predicate KeysDiffer(fs: seq<Field>, i: nat, j: nat)
    requires i < |fs| && j < |fs|
  {
    fs[i].key != fs[j].key
  }

  ghost predicate UniqueKeys(fs: seq<Field>) {
    forall i: nat, j: nat :: i < j < |fs| ==> KeysDiffer(fs, i, j)
  }

  ghost predicate HasKey(fs: seq<Field>, key: string) {
    exists i :: 0 <= i < |fs| && fs[i].key == key
  }

  /** What lookups see. */
  ghost function Lookups(fs: seq<Field>): map<string, string> {
    if fs == [] then map[] else Lookups(fs[..|fs| - 1])[fs[|fs| - 1].key := fs[|fs| - 1].value]
  }

  lemma PrefixUnique(fs: seq<Field>, n: nat)
    requires UniqueKeys(fs) && n <= |fs|
    ensures UniqueKeys(fs[..n])
  {
    forall i: nat, j: nat | i < j < n ensures KeysDiffer(fs[..n], i, j) {
      assert KeysDiffer(fs, i, j);
    }
  }

  lemma {:induction false} LookupsAt(fs: seq<Field>, i: nat)
    requires UniqueKeys(fs) && i < |fs|
    ensures fs[i].key in Lookups(fs) && Lookups(fs)[fs[i].key] == fs[i].value
  {
    var n := |fs| - 1;
    if i < n {
      assert KeysDiffer(fs, i, n);
      PrefixUnique(fs, n);
      LookupsAt(fs[..n], i);
    }
  }

  lemma {:induction false} LookupsKeys(fs: seq<Field>, key: string)
    ensures key in Lookups(fs) <==> HasKey(fs, key)
  {
    if fs != [] {
      var n := |fs| - 1;
      LookupsKeys(fs[..n], key);
      if HasKey(fs[..n], key) {
        var i :| 0 <= i < n && fs[..n][i].key == key;
        assert fs[i].key == key;
      }
      if i :| 0 <= i < |fs| && fs[i].key == key && i < n {
        assert fs[..n][i].key == key;
      }
    }
  }

  lemma LookupsOne(fs: seq<Field>, m: map<string, string>, key: string)
    requires UniqueKeys(fs) && (key in m <==> HasKey(fs, key))
    requires forall i :: 0 <= i < |fs| && fs[i].key == key && key in m ==> m[key] == fs[i].value
    ensures key in Lookups(fs) <==> key in m
    ensures key in m ==> Lookups(fs)[key] == m[key]
  {
    LookupsKeys(fs, key);
    if key in m {
      var i :| 0 <= i < |fs| && fs[i].key == key;
      LookupsAt(fs, i);
    }
  }

  /** Lookups are determined by the keys and their values, whatever their order. */
  lemma LookupsSame(fs: seq<Field>, m: map<string, string>)
    requires UniqueKeys(fs)
    requires forall key :: key in m <==> HasKey(fs, key)
    requires forall i :: 0 <= i < |fs| && fs[i].key in m ==> m[fs[i].key] == fs[i].value
    ensures Lookups(fs) == m
  {
    forall key ensures (key in Lookups(fs) <==> key in m) && (key in m ==> Lookups(fs)[key] == m[key]) {
      LookupsOne(fs, m, key);
    }
  }

  lemma ReplaceUnique(fs: seq<Field>, i: nat, value: string)
    requires UniqueKeys(fs) && i < |fs|
    ensures UniqueKeys(fs[i := Field(fs[i].key, value)])
  {
    var fs' := fs[i := Field(fs[i].key, value)];
    forall j: nat, k: nat | j < k < |fs'| ensures KeysDiffer(fs', j, k) {
      assert KeysDiffer(fs, j, k);
    }
  }

  lemma LookupsReplace(fs: seq<Field>, i: nat, value: string)
    requires UniqueKeys(fs) && i < |fs|
    ensures Lookups(fs[i := Field(fs[i].key, value)]) == Lookups(fs)[fs[i].key := value]
  {
    ReplaceUnique(fs, i, value);
    var fs', m := fs[i := Field(fs[i].key, value)], Lookups(fs)[fs[i].key := value];
    forall key ensures key in m <==> HasKey(fs', key) {
      LookupsKeys(fs, key);
      assert HasKey(fs, key) <==> HasKey(fs', key) by {
        assert forall j :: 0 <= j < |fs| ==> fs'[j].key == fs[j].key;
      }
    }
    forall j: nat | j < |fs'| && fs'[j].key in m ensures m[fs'[j].key] == fs'[j].value {
      LookupsAt(fs, j);
      assert if j < i then KeysDiffer(fs, j, i) else j > i ==> KeysDiffer(fs, i, j);
    }
    LookupsSame(fs', m);
  }

  lemma AppendUnique(fs: seq<Field>, f: Field)
    requires UniqueKeys(fs) && !HasKey(fs, f.key)
    ensures UniqueKeys(fs + [f])
  {
    forall i: nat, j: nat | i < j < |fs| + 1 ensures KeysDiffer(fs + [f], i, j) {
      assert j < |fs| ==> KeysDiffer(fs, i, j);
    }
  }

  ghost function WithoutAt(fs: seq<Field>, i: nat): (rest: seq<Field>)
    requires i < |fs|
    ensures |rest| == |fs| - 1 && forall j :: 0 <= j < |rest| ==> rest[j] == fs[if j < i then j else j + 1]
  {
    fs[..i] + fs[i + 1..]
  }

  lemma DeleteUnique(fs: seq<Field>, i: nat)
    requires UniqueKeys(fs) && i < |fs|
    ensures UniqueKeys(WithoutAt(fs, i))
    ensures forall j :: 0 <= j < |fs| && j != i ==> fs[j].key != fs[i].key
  {
    var rest := WithoutAt(fs, i);
    forall j: nat, k: nat | j < k < |rest| ensures KeysDiffer(rest, j, k) {
      assert KeysDiffer(fs, if j < i then j else j + 1, if k < i then k else k + 1);
    }
    forall j: nat | j < |fs| && j != i ensures fs[j].key != fs[i].key {
      assert if j < i then KeysDiffer(fs, j, i) else KeysDiffer(fs, i, j);
    }
  }

  lemma KeysWithout(fs: seq<Field>, i: nat, key: string)
    requires UniqueKeys(fs) && i < |fs|
    ensures HasKey(WithoutAt(fs, i), key) <==> HasKey(fs, key) && key != fs[i].key
  {
    DeleteUnique(fs, i);
    if HasKey(fs, key) && key != fs[i].key {
      var j :| 0 <= j < |fs| && fs[j].key == key;
      assert WithoutAt(fs, i)[if j < i then j else j - 1].key == key;
    }
  }

  lemma LookupsDelete(fs: seq<Field>, i: nat)
    requires UniqueKeys(fs) && i < |fs|
    ensures Lookups(WithoutAt(fs, i)) == Lookups(fs) - {fs[i].key}
  {
    DeleteUnique(fs, i);
    var fs', m := WithoutAt(fs, i), Lookups(fs) - {fs[i].key};
    forall key ensures key in m <==> HasKey(fs', key) {
      LookupsKeys(fs, key);
      KeysWithout(fs, i, key);
    }
    forall j | 0 <= j < |fs'| && fs'[j].key in m ensures m[fs'[j].key] == fs'[j].value {
      LookupsAt(fs, if j < i then j else j + 1);
    }
    LookupsSame(fs', m);
  }

  /** A list with a field set: in its place if it is there, else at the end. */
  ghost function Put(fs: seq<Field>, key: string, value: string): seq<Field> {
    if fs == [] then [Field(key, value)]
    else if fs[0].key == key then [Field(key, value)] + fs[1..]
    else [fs[0]] + Put(fs[1..], key, value)
  }

  ghost function Delete(fs: seq<Field>, key: string): seq<Field> {
    if fs == [] then []
    else if fs[0].key == key then fs[1..]
    else [fs[0]] + Delete(fs[1..], key)
  }

  lemma {:induction false} PutAt(fs: seq<Field>, key: string, value: string, i: nat)
    requires i <= |fs| && (forall j :: 0 <= j < i ==> fs[j].key != key) && (i < |fs| ==> fs[i].key == key)
    ensures Put(fs, key, value) == if i < |fs| then fs[i := Field(key, value)] else fs + [Field(key, value)]
  {
    if i > 0 {
      PutAt(fs[1..], key, value, i - 1);
    }
  }

  lemma {:induction false} DeleteAt(fs: seq<Field>, key: string, i: nat)
    requires i <= |fs| && (forall j :: 0 <= j < i ==> fs[j].key != key) && (i < |fs| ==> fs[i].key == key)
    ensures Delete(fs, key) == if i < |fs| then fs[..i] + fs[i + 1..] else fs
  {
    if i > 0 {
      DeleteAt(fs[1..], key, i - 1);
    }
  }

  lemma {:induction false} FirstAt(fs: seq<Field>, key: string) returns (i: nat)
    ensures i <= |fs| && (forall j :: 0 <= j < i ==> fs[j].key != key) && (i < |fs| ==> fs[i].key == key)
    ensures HasKey(fs, key) <==> i < |fs|
  {
    i := 0;
    while i < |fs| && fs[i].key != key
      invariant i <= |fs| && forall j :: 0 <= j < i ==> fs[j].key != key
    {
      i := i + 1;
    }
  }

  lemma PutUnique(fs: seq<Field>, key: string, value: string, i: nat)
    requires UniqueKeys(fs)
    requires i <= |fs| && (forall j :: 0 <= j < i ==> fs[j].key != key) && (i < |fs| ==> fs[i].key == key)
    ensures UniqueKeys(Put(fs, key, value))
    ensures Put(fs, key, value) == if i < |fs| then fs[i := Field(key, value)] else fs + [Field(key, value)]
  {
    PutAt(fs, key, value, i);
    if i < |fs| {
      ReplaceUnique(fs, i, value);
    } else {
      AppendUnique(fs, Field(key, value));
    }
  }

  /** Setting a field changes one lookup. */
  lemma PutLookups(fs: seq<Field>, key: string, value: string)
    requires UniqueKeys(fs)
    ensures Lookups(Put(fs, key, value)) == Lookups(fs)[key := value]
  {
    var i := FirstAt(fs, key);
    PutAt(fs, key, value, i);
    if i < |fs| {
      LookupsReplace(fs, i, value);
    } else {
      assert (fs + [Field(key, value)])[..|fs|] == fs;
    }
  }

  /** Deleting a field removes one lookup. */
  lemma DeleteLookups(fs: seq<Field>, key: string)
    requires UniqueKeys(fs)
    ensures Lookups(Delete(fs, key)) == Lookups(fs) - {key}
  {
    var i := FirstAt(fs, key);
    DeleteAt(fs, key, i);
    if i < |fs| {
      LookupsDelete(fs, i);
    } else {
      LookupsKeys(fs, key);
    }
  }

  class AuthFields {
    var fields: Option<seq<Field>>
    var snapshotFields: Option<seq<Field>>
    var snapshotIdx: nat
    var snapshotted: bool
    ghost var saved: seq<Field>     // the fields when the last snapshot was taken
    ghost var appended: bool        // a field was appended since then
    ghost var late: bool            // the copy of that snapshot was made after a field was appended

    function Current(): seq<Field>
      reads this
    {
      if fields.Some? then fields.value else []
    }

    ghost predicate Valid()
      reads this
    {
      && UniqueKeys(Current()) && (fields.None? ==> snapshotFields.None?) && (!snapshotted ==> snapshotIdx == 0)
      && match snapshotFields
         case None =>
           && !late && snapshotIdx <= |Current()| && saved == Current()[..snapshotIdx]
           && (snapshotted && appended <==> snapshotted && snapshotIdx < |Current()|)
         case Some(copy) =>
           && snapshotted && UniqueKeys(copy) && saved <= copy && (copy == saved <==> !late)
    }

    /** auth_fields_init() */
    constructor ()
      ensures Valid() && Current() == [] && saved == [] && !snapshotted && !late && snapshotFields.None?
    {
      fields, snapshotFields, snapshotIdx, snapshotted := None, None, 0, false;
      saved, appended, late := [], false, false;
    }

    /** auth_fields_snapshot_preserve() */
    method Preserve()
      requires Valid() && fields.Some?
      modifies `snapshotFields, `late
      ensures Valid() && (snapshotted ==> snapshotFields.Some?)
      ensures late == (old(late) || (snapshotted && old(snapshotFields.None?) && appended))
      ensures snapshotFields == if snapshotted && old(snapshotFields.None?) then fields else old(snapshotFields)
    {
      if !snapshotted || snapshotFields.Some? {
        return;
      }
      snapshotFields := fields;
      late := appended;
    }

    /** auth_fields_find_idx() */
    method FindIdx(key: string) returns (idx: Option<nat>)
      ensures idx.Some? ==> idx.value < |Current()| && Current()[idx.value].key == key
      ensures idx.Some? ==> forall j :: 0 <= j < idx.value ==> Current()[j].key != key
      ensures idx.None? ==> !HasKey(Current(), key)
    {
      if fields.None? {
        return None;
      }
      var i := 0;
      while i < |fields.value|
        invariant i <= |fields.value| && forall j :: 0 <= j < i ==> fields.value[j].key != key
      {
        if fields.value[i].key == key {
          return Some(i);
        }
        i := i + 1;
      }
      return None;
    }

    /** auth_fields_find() */
    method Find(key: string) returns (value: Option<string>)
      requires Valid()
      ensures value == if key in Lookups(Current()) then Some(Lookups(Current())[key]) else None
    {
      LookupsKeys(Current(), key);
      var idx := FindIdx(key);
      if idx.None? {
        return None;
      }
      LookupsAt(Current(), idx.value);
      return Some(Current()[idx.value].value);
    }

    /** auth_fields_add(): a missing value means "yes". */
    method Add(key: string, value: Option<string>)
      requires Valid() && key != "" && '\t' !in key && '\n' !in key
      modifies this
      ensures Valid() && saved == old(saved) && snapshotted == old(snapshotted)
      ensures Current() == Put(old(Current()), key, if value.Some? then value.value else "yes")
      ensures Touched(old(HasKey(Current(), key))) && appended == (old(appended) || !old(HasKey(Current(), key)))
      ensures fields.Some?
    {
      var v := if value.Some? then value.value else "yes";
      var idx := FindIdx(key);
      PutUnique(Current(), key, v, if idx.Some? then idx.value else |Current()|);
      if idx.None? {
        fields := Some(Current() + [Field(key, v)]);
        appended := true;
      } else {
        Preserve();
        fields := Some(fields.value[idx.value := Field(key, v)]);
      }
    }

    /** Whether the snapshot was copied: a change of existing fields copies it if there is no copy yet. */
    twostate predicate Touched(change: bool)
      reads this
    {
      var copies := change && snapshotted && old(snapshotFields.None?);
      && snapshotFields == (if copies then old(fields) else old(snapshotFields))
      && late == (old(late) || (copies && old(appended)))
    }

    /** auth_fields_remove() */
    method Remove(key: string)
      requires Valid()
      modifies this
      ensures Valid() && saved == old(saved) && snapshotted == old(snapshotted)
      ensures Current() == Delete(old(Current()), key)
      ensures Touched(old(HasKey(Current(), key))) && appended == old(appended) && fields.Some? == old(fields.Some?)
    {
      var idx := FindIdx(key);
      DeleteAt(Current(), key, if idx.Some? then idx.value else |Current()|);
      if idx.Some? {
        DeleteUnique(Current(), idx.value);
        Preserve();
        fields := Some(fields.value[..idx.value] + fields.value[idx.value + 1..]);
      }
    }

    /** auth_fields_reset() */
    method Reset()
      requires Valid()
      modifies this
      ensures Valid() && saved == old(saved) && snapshotted == old(snapshotted) && Current() == []
      ensures Touched(old(fields.Some?)) && appended == old(appended) && fields.Some? == old(fields.Some?)
    {
      if fields.Some? {
        Preserve();
        fields := Some([]);
      }
    }

    /** auth_fields_snapshot() */
    method Snapshot()
      requires Valid()
      modifies this
      ensures Valid() && Current() == old(Current()) && saved == Current() && snapshotted && !late && !appended
      ensures fields == old(fields) && snapshotFields == if old(snapshotFields.Some?) then fields else None
    {
      snapshotted := true;
      saved, appended, late := Current(), false, false;
      if fields.None? {
        return;
      }
      if snapshotFields.None? {
        snapshotIdx := |fields.value|;
      } else {
        snapshotFields := fields;
      }
    }

    /** auth_fields_rollback(): the last snapshot comes back, in full and in front. Nothing follows it, unless
        the copy was made late. */
    method Rollback()
      requires Valid()
      modifies this
      ensures Valid() && saved == old(saved) && late == old(late)
      ensures saved <= Current() && (Current() == saved <==> !late)
      ensures snapshotFields == old(snapshotFields) && (snapshotFields.Some? ==> fields == snapshotFields)
      ensures !snapshotted ==> Current() == []
    {
      if snapshotFields.Some? {
        fields := snapshotFields;
      } else if fields.Some? {
        PrefixUnique(fields.value, snapshotIdx);
        fields := Some(fields.value[..snapshotIdx]);
        appended := false;
      }
    }
  }

  datatype Edit = EditAdd(key: string, value: Option<string>) | EditRemove(key: string) | EditReset

  ghost predicate LegalKeys(edits: seq<Edit>) {
    forall i :: 0 <= i < |edits| && edits[i].EditAdd? ==>
      edits[i].key != "" && '\t' !in edits[i].key && '\n' !in edits[i].key
  }

  /** The first edit that changes a field already there comes after one that adds a field. */
  ghost predicate AddsFirst(fs: seq<Field>, created: bool, edits: seq<Edit>, added: bool)
    decreases |edits|
  {
    if edits == [] then false
    else match edits[0]
      case EditAdd(key, value) =>
        if HasKey(fs, key) then added
        else AddsFirst(Put(fs, key, if value.Some? then value.value else "yes"), true, edits[1..], true)
      case EditRemove(key) =>
        if HasKey(fs, key) then added else AddsFirst(fs, created, edits[1..], added)
      case EditReset =>
        if created then added else AddsFirst([], created, edits[1..], added)
  }

  /** One edit: a first copy is late exactly if AddsFirst() is decided by it. */
  method Apply(f: AuthFields, e: Edit, ghost edits: seq<Edit>)
    requires f.Valid() && f.snapshotted && LegalKeys(edits) && edits != [] && e == edits[0]
    modifies f
    ensures f.Valid() && f.saved == old(f.saved) && f.snapshotted
    ensures old(f.snapshotFields.Some?) ==> f.snapshotFields.Some? && f.late == old(f.late)
    ensures old(f.snapshotFields.None?) ==>
              AddsFirst(old(f.Current()), old(f.fields.Some?), edits, old(f.appended)) ==
                if f.snapshotFields.Some? then f.late
                else AddsFirst(f.Current(), f.fields.Some?, edits[1..], f.appended)
  {
    match e {
      case EditAdd(key, value) => f.Add(key, value);
      case EditRemove(key) =>
        DeleteAbsent(f.Current(), key);
        f.Remove(key);
      case EditReset => f.Reset();
    }
  }

  lemma {:induction false} DeleteAbsent(fs: seq<Field>, key: string)
    ensures !HasKey(fs, key) ==> Delete(fs, key) == fs
  {
    var i := FirstAt(fs, key);
    DeleteAt(fs, key, i);
  }

  /** A snapshot, any edits, and a rollback: the fields come back, and nothing else exactly if there was a copy
      before or no field is added before the first change. */
  method EditAndRollback(f: AuthFields, edits: seq<Edit>)
    requires f.Valid() && LegalKeys(edits)
    modifies f
    ensures f.Valid() && old(f.Current()) <= f.Current()
    ensures f.Current() == old(f.Current()) <==>
            old(f.snapshotFields.Some?) || !AddsFirst(old(f.Current()), old(f.fields.Some?), edits, false)
  {
    f.Snapshot();
    ghost var verdict := AddsFirst(f.Current(), f.fields.Some?, edits, false);
    var i := 0;
    assert edits[0..] == edits;
    while i < |edits|
      invariant i <= |edits| && f.Valid() && f.snapshotted && f.saved == old(f.Current())
      invariant old(f.snapshotFields.Some?) ==> f.snapshotFields.Some? && !f.late
      invariant old(f.snapshotFields.None?) ==>
                  verdict == if f.snapshotFields.Some? then f.late
                             else AddsFirst(f.Current(), f.fields.Some?, edits[i..], f.appended)
    {
      assert edits[i..][1..] == edits[i + 1..];
      Apply(f, edits[i], edits[i..]);
      i := i + 1;
    }
    f.Rollback();
  }

  /** A rollback that leaves a field added after the snapshot. */
  method LateCopy() returns (before: seq<Field>, after: seq<Field>)
    ensures before == [Field("a", "1")] && after == [Field("a", "1"), Field("b", "2")]
  {
    var f := new AuthFields();
    f.Add("a", Some("1"));
    f.Snapshot();
    before := f.Current();
    f.Add("b", Some("2"));
    assert Put(before[1..], "b", "2") == [Field("b", "2")];
    assert f.Current()[0].key == "a";
    f.Add("a", Some("3"));
    f.Rollback();
    after := f.Current();
  }
}
