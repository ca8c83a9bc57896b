/** The whitelist of sort fields: the names a client may send, folded to lower case, and the
    columns they stand for (Make in page/query.go, page/sortable.go). */
module Whitelist {
  import opened Wrappers
  import opened Resolve
  import opened SortText

  /** One name and its column, as they are met. */
  datatype Entry = Entry(name: string, column: string)

  // ---- Folding ----------------------------------------------------------------------------

  /** Folds the names in order of meeting; a second column for one folded name is ambiguous. */
  function Fold(entries: seq<Entry>): Result<Cols> {
    if entries == [] then Ok(map[])
    else
      match Fold(entries[..|entries| - 1])
      case Err(e) => Err(e)
      case Ok(cols) =>
        var last := entries[|entries| - 1];
        var key := ToLower(last.name);
        if key in cols && cols[key] != last.column then Err(ErrAmbiguousSortField) else Ok(cols[key := last.column])
  }

  /** No two names that fold alike have different columns. */
  ghost predicate Consistent(entries: seq<Entry>) {
    forall a, b :: a in entries && b in entries && ToLower(a.name) == ToLower(b.name) ==> a.column == b.column
  }

  lemma {:induction false} FoldIsExact(entries: seq<Entry>)
    ensures Fold(entries).Ok? <==> Consistent(entries)
    ensures Fold(entries).Err? ==> Fold(entries).error == ErrAmbiguousSortField
    ensures Fold(entries).Ok? ==>
              && (forall a :: a in entries ==>
                    ToLower(a.name) in Fold(entries).value && Fold(entries).value[ToLower(a.name)] == a.column)
              && (forall key :: key in Fold(entries).value ==> exists a :: a in entries && ToLower(a.name) == key)
  {
    if entries == [] {
    } else {
      var n := |entries| - 1;
      var front, last := entries[..n], entries[n];
      FoldIsExact(front);
      assert forall a :: a in entries <==> a in front || a == last;
      if Fold(front).Ok? && ToLower(last.name) in Fold(front).value {
        var a :| a in front && ToLower(a.name) == ToLower(last.name);
        assert Fold(front).value[ToLower(last.name)] == a.column;
        assert a in entries && last in entries;
      }
    }
  }

  /** Folding the same entries in any order accepts alike and gives the same whitelist. */
  lemma FoldIgnoresOrder(a: seq<Entry>, b: seq<Entry>)
    requires forall e :: e in a <==> e in b
    ensures Fold(a) == Fold(b)
  {
    FoldIsExact(a);
    FoldIsExact(b);
    assert Consistent(a) <==> Consistent(b);
    if Fold(a).Ok? {
      var m, w := Fold(a).value, Fold(b).value;
      forall key | key in m || key in w ensures key in m && key in w && m[key] == w[key] {
        var e :| e in a && ToLower(e.name) == key;
      }
      assert m == w;
    }
  }

  // ---- A whitelist given by hand ----------------------------------------------------------

  predicate ValidColumn(column: string) { column != "" && '\0' !in column }

  /** A column has a name, and no NUL in it. */
  predicate Nameable(column: string) {
    |column| > 0 && forall i :: 0 <= i < |column| ==> column[i] as int != 0
  }

  lemma ValidIsNameable(column: string)
    ensures ValidColumn(column) <==> Nameable(column)
  {
    assert '\0' in column <==> exists i :: 0 <= i < |column| && column[i] as int == 0;
  }

  ghost predicate FoldsWithoutConflict(cols: Cols) {
    forall f, g :: f in cols && g in cols && ToLower(f) == ToLower(g) ==> cols[f] == cols[g]
  }

  /** The whitelist a map folds to: its folded names and no others, each with its column. */
  ghost predicate FoldedFrom(folded: Cols, cols: Cols) {
    && (forall key :: key in folded ==> exists f :: f in cols && ToLower(f) == key)
    && (forall f :: f in cols ==> ToLower(f) in folded && folded[ToLower(f)] == cols[f])
  }

  /** There is one such whitelist, so the order in which the keys were visited does not show. */
  lemma FoldedIsUnique(a: Cols, b: Cols, cols: Cols)
    requires FoldedFrom(a, cols) && FoldedFrom(b, cols)
    ensures a == b
  {
    forall key | key in a || key in b ensures key in a && key in b && a[key] == b[key] {
      var f :| f in cols && ToLower(f) == key;
    }
  }

  /** The defect an error names. */
  ghost predicate HasDefect(cols: Cols, e: Error) {
    match e
    case ErrUnknownSortField => "" in cols
    case ErrInvalidColumn => exists f :: f in cols && !Nameable(cols[f])
    case ErrAmbiguousSortField => !FoldsWithoutConflict(cols)
    case _ => false
  }

  /** The loop of Make over the given map, whose keys come in whatever order the runtime picks. */
  method FoldSortable(cols: Cols) returns (r: Result<Cols>)
    ensures r.Ok? <==> FoldsWithoutConflict(cols) && "" !in cols && forall f :: f in cols ==> Nameable(cols[f])
    ensures r.Ok? ==> FoldedFrom(r.value, cols)
    ensures r.Err? ==> HasDefect(cols, r.error)
  {
    var sortable: Cols := map[];
    var left := cols.Keys;
    while left != {}
      invariant left <= cols.Keys
      invariant forall f :: f in cols.Keys - left ==> f != "" && Nameable(cols[f])
      invariant forall f :: f in cols.Keys - left ==> ToLower(f) in sortable && sortable[ToLower(f)] == cols[f]
      invariant forall key :: key in sortable ==> exists f :: f in cols.Keys - left && ToLower(f) == key
    {
      var field :| field in left;
      var column := cols[field];
      ValidIsNameable(column);
      if field == "" {
        return Err(ErrUnknownSortField);
      }
      if !ValidColumn(column) {
        return Err(ErrInvalidColumn);
      }
      var key := ToLower(field);
      if key in sortable && sortable[key] != column {
        return Err(ErrAmbiguousSortField);
      }
      sortable := sortable[key := column];
      left := left - {field};
    }
    r := Ok(sortable);
  }

  // ---- A whitelist derived from a struct --------------------------------------------------

  /** A Go type as far as the walk looks: a struct's fields, or something else. */
  datatype Model = Struct(fields: seq<Field>) | Pointer(elem: Model) | OtherType

  datatype Field = Field(name: string, exported: bool, anonymous: bool, fieldType: Model, tags: map<string, string>)

  const DB_TAG := "db"

  function Elem(model: Model): Model {
    if model.Pointer? then Elem(model.elem) else model
  }

  /** The part of a tag before its first comma. */
  function NamePart(tag: string): string {
    if tag == "" || tag[0] == ',' then "" else [tag[0]] + NamePart(tag[1..])
  }

  function TagName(field: Field, tagKey: string): string {
    if tagKey in field.tags then NamePart(field.tags[tagKey]) else ""
  }

  /** An embedded struct without a column of its own lends its fields. */
  predicate Flattened(field: Field) {
    field.anonymous && Elem(field.fieldType).Struct? && TagName(field, DB_TAG) == ""
  }

  /** The entry an ordinary field makes, if any. */
  function FieldEntry(field: Field, tagKey: string): seq<Entry> {
    var tag := TagName(field, DB_TAG);
    var column := if tag == "" then ToLower(field.name) else tag;
    var name := if tagKey != DB_TAG then TagName(field, tagKey) else column;
    if tag == "-" then []
    else if tagKey != DB_TAG && (name == "" || name == "-") then []
    else [Entry(name, column)]
  }

  function Size(model: Model): nat {
    match model
    case Struct(fields) => 1 + SizeAll(fields)
    case Pointer(elem) => 1 + Size(elem)
    case OtherType => 1
  }

  function SizeAll(fields: seq<Field>): nat {
    if fields == [] then 0 else 1 + Size(fields[0].fieldType) + SizeAll(fields[1..])
  }

  lemma {:induction false} ElemIsNoLarger(model: Model)
    ensures Size(Elem(model)) <= Size(model)
  {
    if model.Pointer? { ElemIsNoLarger(model.elem); }
  }

  lemma {:induction false} FieldIsSmaller(fields: seq<Field>, i: nat)
    requires i < |fields|
    ensures Size(fields[i].fieldType) < SizeAll(fields)
  {
    if i == 0 {
    } else {
      FieldIsSmaller(fields[1..], i - 1);
    }
  }

  /** What one field lists: nothing, the fields it lends, or its own entry. */
  function FieldEntries(field: Field, tagKey: string): seq<Entry>
    decreases Size(field.fieldType), 1
  {
    if !field.exported && !field.anonymous then []
    else if Flattened(field) then
      ElemIsNoLarger(field.fieldType);
      Entries(Elem(field.fieldType).fields, tagKey)
    else FieldEntry(field, tagKey)
  }

  /** What a struct's fields list, in the order of the walk. */
  function Entries(fields: seq<Field>, tagKey: string): seq<Entry>
    decreases SizeAll(fields), 0
  {
    if fields == [] then [] else FieldEntries(fields[0], tagKey) + Entries(fields[1..], tagKey)
  }

  /** The whitelist of a model, derived afresh. */
  function Derived(model: Option<Model>, tagKey: string): Result<Cols> {
    if model.None? || !Elem(model.value).Struct? then Err(ErrUnsortableModel)
    else Fold(Entries(Elem(model.value).fields, tagKey))
  }

  // ---- What a model lists -----------------------------------------------------------------

  /** The part of the field's tag before its first comma; nothing if it has no such tag. */
  predicate TagIs(field: Field, key: string, part: string) {
    && ',' !in part
    && if key !in field.tags then part == ""
       else part <= field.tags[key] && (part == field.tags[key] || field.tags[key][|part|] == ',')
  }

  /** A struct, or a pointer to one. */
  predicate IsStruct(model: Model) {
    match model
    case Struct(_) => true
    case Pointer(elem) => IsStruct(elem)
    case OtherType => false
  }

  /** An ordinary field: its column is its db tag or its own name in lower case, and its name for the
      client is what the other tag says, or the column if that is the db tag itself. A tag `-` hides
      it, and so does a missing name. */
  ghost predicate NamesColumn(field: Field, tagKey: string, name: string, column: string) {
    exists db ::
      && TagIs(field, "db", db) && db != "-"
      && (if db == "" then NoUpper(column) && SameButCase(field.name, column) else column == db)
      && (if tagKey == "db" then name == column else name != "" && name != "-" && TagIs(field, tagKey, name))
  }

  /** A field that can be seen: an embedded struct without a db tag stands for its fields. */
  ghost predicate FieldNames(field: Field, tagKey: string, name: string, column: string) {
    && (field.exported || field.anonymous)
    && if field.anonymous && IsStruct(field.fieldType) && TagIs(field, "db", "")
       then ModelNames(field.fieldType, tagKey, name, column)
       else NamesColumn(field, tagKey, name, column)
  }

  ghost predicate ModelNames(model: Model, tagKey: string, name: string, column: string) {
    match model
    case Struct(fields) => exists i :: 0 <= i < |fields| && FieldNames(fields[i], tagKey, name, column)
    case Pointer(elem) => ModelNames(elem, tagKey, name, column)
    case OtherType => false
  }

  lemma {:induction false} NamePartIs(tag: string, part: string)
    ensures part == NamePart(tag)
       <==> ',' !in part && part <= tag && (part == tag || tag[|part|] == ',')
  {
    if tag == "" || tag[0] == ',' {
    } else if part == "" {
    } else {
      NamePartIs(tag[1..], part[1..]);
      assert part == [part[0]] + part[1..] && tag == [tag[0]] + tag[1..];
      assert part <= tag <==> part[0] == tag[0] && part[1..] <= tag[1..];
      assert ',' in part <==> part[0] == ',' || ',' in part[1..];
    }
  }

  lemma TagNameIs(field: Field, key: string, part: string)
    ensures TagIs(field, key, part) <==> part == TagName(field, key)
  {
    if key in field.tags { NamePartIs(field.tags[key], part); }
  }

  lemma {:induction false} ElemIsStruct(model: Model)
    ensures IsStruct(model) <==> Elem(model).Struct?
  {
    if model.Pointer? { ElemIsStruct(model.elem); }
  }

  lemma {:induction false} ElemNames(model: Model, tagKey: string, name: string, column: string)
    requires Elem(model).Struct?
    ensures ModelNames(model, tagKey, name, column) <==> ModelNames(Elem(model), tagKey, name, column)
  {
    if model.Pointer? { ElemNames(model.elem, tagKey, name, column); }
  }

  lemma EntryIsNamed(field: Field, tagKey: string, name: string, column: string)
    ensures Entry(name, column) in FieldEntry(field, tagKey) <==> NamesColumn(field, tagKey, name, column)
  {
    var db := TagName(field, DB_TAG);
    TagNameIs(field, tagKey, name);
    FoldedIs(field.name, column);
    forall part ensures TagIs(field, "db", part) <==> part == db {
      TagNameIs(field, "db", part);
    }
    assert TagIs(field, "db", db);
    assert ToLower(field.name) == column <==> NoUpper(column) && SameButCase(field.name, column);
    assert NamesColumn(field, tagKey, name, column) <==>
      && db != "-"
      && (if db == "" then column == ToLower(field.name) else column == db)
      && (if tagKey == "db" then name == column else name != "" && name != "-" && name == TagName(field, tagKey));
  }

  lemma {:induction false} FieldEntriesAreNamed(field: Field, tagKey: string, name: string, column: string)
    ensures Entry(name, column) in FieldEntries(field, tagKey) <==> FieldNames(field, tagKey, name, column)
    decreases Size(field.fieldType), 1
  {
    ElemIsStruct(field.fieldType);
    TagNameIs(field, "db", "");
    if Flattened(field) {
      ElemIsNoLarger(field.fieldType);
      ElemNames(field.fieldType, tagKey, name, column);
      EntriesAreNamed(Elem(field.fieldType).fields, tagKey, name, column);
    } else {
      EntryIsNamed(field, tagKey, name, column);
    }
  }

  /** The entries of a struct are the names and columns its fields stand for, and no others. */
  lemma {:induction false} EntriesAreNamed(fields: seq<Field>, tagKey: string, name: string, column: string)
    ensures Entry(name, column) in Entries(fields, tagKey) <==> ModelNames(Struct(fields), tagKey, name, column)
    decreases SizeAll(fields), 0
  {
    if fields == [] {
    } else {
      FieldEntriesAreNamed(fields[0], tagKey, name, column);
      EntriesAreNamed(fields[1..], tagKey, name, column);
      assert fields == [fields[0]] + fields[1..];
      FrontOrRest(fields, tagKey, name, column);
    }
  }

  lemma FrontOrRest(fields: seq<Field>, tagKey: string, name: string, column: string)
    requires fields != []
    ensures ModelNames(Struct(fields), tagKey, name, column)
       <==> FieldNames(fields[0], tagKey, name, column) || ModelNames(Struct(fields[1..]), tagKey, name, column)
  {
    var rest := fields[1..];
    if ModelNames(Struct(rest), tagKey, name, column) {
      var i :| 0 <= i < |rest| && FieldNames(rest[i], tagKey, name, column);
      assert FieldNames(fields[i + 1], tagKey, name, column);
    }
    if ModelNames(Struct(fields), tagKey, name, column) {
      var i :| 0 <= i < |fields| && FieldNames(fields[i], tagKey, name, column);
      if i > 0 { assert FieldNames(rest[i - 1], tagKey, name, column); }
    }
  }

  /** No two names that fold alike stand for different columns. */
  ghost predicate NamesAgree(model: Model, tagKey: string) {
    forall a, b, c, d ::
      ModelNames(model, tagKey, a, c) && ModelNames(model, tagKey, b, d) && ToLower(a) == ToLower(b) ==> c == d
  }

  /** A derived whitelist has what the model's fields name and nothing else; there is none if the
      model is no struct, or two of its names that fold alike have different columns. */
  lemma DerivedIsNamed(model: Model, tagKey: string)
    ensures Derived(Some(model), tagKey).Ok? <==> IsStruct(model) && NamesAgree(model, tagKey)
    ensures Derived(Some(model), tagKey).Ok? ==>
              var cols := Derived(Some(model), tagKey).value;
              && (forall name, column :: ModelNames(model, tagKey, name, column) ==>
                    ToLower(name) in cols && cols[ToLower(name)] == column)
              && forall key :: key in cols ==>
                   exists name :: ModelNames(model, tagKey, name, cols[key]) && ToLower(name) == key
    ensures Derived(Some(model), tagKey).Err? ==>
              Derived(Some(model), tagKey).error
              == if IsStruct(model) then ErrAmbiguousSortField else ErrUnsortableModel
  {
    ElemIsStruct(model);
    if IsStruct(model) {
      var entries := Entries(Elem(model).fields, tagKey);
      forall name, column ensures Entry(name, column) in entries <==> ModelNames(model, tagKey, name, column) {
        EntriesAreNamed(Elem(model).fields, tagKey, name, column);
        ElemNames(model, tagKey, name, column);
      }
      FoldIsExact(entries);
      ConsistentByNames(model, tagKey, entries);
      if Fold(entries).Ok? {
        forall key | key in Fold(entries).value
          ensures exists name :: ModelNames(model, tagKey, name, Fold(entries).value[key]) && ToLower(name) == key
        {
          var a :| a in entries && ToLower(a.name) == key;
          assert Entry(a.name, a.column) in entries;
        }
      }
    }
  }

  lemma ConsistentByNames(model: Model, tagKey: string, entries: seq<Entry>)
    requires forall name, column :: Entry(name, column) in entries <==> ModelNames(model, tagKey, name, column)
    ensures Consistent(entries) <==> NamesAgree(model, tagKey)
  {
    if NamesAgree(model, tagKey) {
      forall a, b | a in entries && b in entries && ToLower(a.name) == ToLower(b.name) ensures a.column == b.column {
        assert Entry(a.name, a.column) in entries && Entry(b.name, b.column) in entries;
      }
    } else {
      var a, b, c, d :|
        ModelNames(model, tagKey, a, c) && ModelNames(model, tagKey, b, d) && ToLower(a) == ToLower(b) && c != d;
      assert Entry(a, c) in entries && Entry(b, d) in entries;
    }
  }

  // ---- The walk ---------------------------------------------------------------------------

  /** A conflict met early stays the outcome. */
  lemma {:induction false} FoldStops(met: seq<Entry>, more: seq<Entry>)
    requires Fold(met).Err?
    ensures Fold(met + more) == Fold(met)
  {
    if more == [] {
      assert met + more == met;
    } else {
      FoldStops(met, more[..|more| - 1]);
      assert (met + more)[..|met + more| - 1] == met + more[..|more| - 1];
    }
  }

  /** The map the walk writes into. */
  class Sortable {
    var cols: Cols

    constructor ()
      ensures cols == map[]
    {
      cols := map[];
    }

    /** Adds one entry, or reports that its name is taken by another column. */
    method Put(entry: Entry, ghost met: seq<Entry>) returns (failure: Option<Error>)
      requires Fold(met) == Ok(cols)
      modifies this
      ensures failure.None? ==> Fold(met + [entry]) == Ok(cols)
      ensures failure.Some? ==> Fold(met + [entry]) == Err(failure.value)
    {
      assert (met + [entry])[..|met|] == met;
      var key := ToLower(entry.name);
      if key in cols && cols[key] != entry.column {
        return Some(ErrAmbiguousSortField);
      }
      cols := cols[key := entry.column];
      failure := None;
    }
  }

  lemma OneMoreField(fields: seq<Field>, i: nat, tagKey: string, done: seq<Entry>)
    requires i < |fields|
    ensures done + Entries(fields[i..], tagKey) ==
            done + FieldEntries(fields[i], tagKey) + Entries(fields[i + 1..], tagKey)
  {
    assert fields[i..][1..] == fields[i + 1..];
  }

  method CollectField(field: Field, tagKey: string, sortable: Sortable, ghost met: seq<Entry>)
    returns (failure: Option<Error>)
    requires Fold(met) == Ok(sortable.cols)
    modifies sortable
    decreases Size(field.fieldType), 1
    ensures failure.None? ==> Fold(met + FieldEntries(field, tagKey)) == Ok(sortable.cols)
    ensures failure.Some? ==> Fold(met + FieldEntries(field, tagKey)) == Err(failure.value)
  {
    failure := None;
    if field.exported || field.anonymous {
      if Flattened(field) {
        ElemIsNoLarger(field.fieldType);
        failure := CollectSortable(Elem(field.fieldType).fields, tagKey, sortable, met);
        return;
      }
      var own := FieldEntry(field, tagKey);
      if own != [] {
        assert own == [own[0]];
        failure := sortable.Put(own[0], met);
        return;
      }
    }
    assert met + [] == met;
  }

  /** Walks the fields, writing into the map as it goes: what it leaves there, or reports, is the
      fold of the entries met before and those of the fields. */
  method CollectSortable(fields: seq<Field>, tagKey: string, sortable: Sortable, ghost met: seq<Entry>)
    returns (failure: Option<Error>)
    requires Fold(met) == Ok(sortable.cols)
    modifies sortable
    decreases SizeAll(fields), 0
    ensures failure.None? ==> Fold(met + Entries(fields, tagKey)) == Ok(sortable.cols)
    ensures failure.Some? ==> Fold(met + Entries(fields, tagKey)) == Err(failure.value)
  {
    ghost var all := met + Entries(fields, tagKey);
    ghost var done := met;
    for i := 0 to |fields|
      invariant Fold(done) == Ok(sortable.cols)
      invariant done + Entries(fields[i..], tagKey) == all
    {
      ghost var next := done + FieldEntries(fields[i], tagKey);
      OneMoreField(fields, i, tagKey, done);
      FieldIsSmaller(fields, i);
      failure := CollectField(fields[i], tagKey, sortable, done);
      if failure.Some? {
        FoldStops(next, Entries(fields[i + 1..], tagKey));
        return;
      }
      done := next;
    }
    assert done + [] == done;
    failure := None;
  }

  // ---- The cache --------------------------------------------------------------------------

  /** What the cache is keyed by: the struct itself, pointers stripped, and the tag. */
  datatype CacheKey = CacheKey(fields: seq<Field>, tag: string)

  function DerivedFor(key: CacheKey): Result<Cols> { Fold(Entries(key.fields, key.tag)) }

  ghost predicate Faithful(entries: map<CacheKey, Cols>) {
    forall key :: key in entries ==> DerivedFor(key) == Ok(entries[key])
  }

  class SortableCache {
    var entries: map<CacheKey, Cols>

    constructor ()
      ensures entries == map[]
    {
      entries := map[];
    }

    /** Whether it was cached or not, the whitelist is the one a fresh derivation gives. */
    method SortableOf(model: Option<Model>, tagKey: string) returns (r: Result<Cols>)
      requires Faithful(entries)
      modifies this
      ensures Faithful(entries) && old(entries.Keys) <= entries.Keys
      ensures r == Derived(model, tagKey)
    {
      if model.None? || !Elem(model.value).Struct? {
        return Err(ErrUnsortableModel);
      }
      var key := CacheKey(Elem(model.value).fields, tagKey);
      if key in entries {
        return Ok(entries[key]);
      }
      var sortable := new Sortable();
      var failure := CollectSortable(key.fields, tagKey, sortable, []);
      assert [] + Entries(key.fields, tagKey) == Entries(key.fields, tagKey);
      if failure.Some? {
        return Err(failure.value);
      }
      if key !in entries {
        entries := entries[key := sortable.cols];
      }
      r := Ok(entries[key]);
    }
  }

  // ---- The cache under interleaving -------------------------------------------------------

  /** Where one caller of sortableOf is: the three steps other callers can come between. */
  datatype Phase = Loading | Deriving | Storing(cols: Cols) | Done(result: Result<Cols>)

  datatype Caller = Caller(key: CacheKey, phase: Phase)

  datatype Shared = Shared(entries: map<CacheKey, Cols>, callers: seq<Caller>)

  function NextPhase(entries: map<CacheKey, Cols>, caller: Caller): Phase {
    match caller.phase
    case Loading => if caller.key in entries then Done(Ok(entries[caller.key])) else Deriving
    case Deriving =>
      (match DerivedFor(caller.key) case Ok(cols) => Storing(cols) case Err(e) => Done(Err(e)))
    case Storing(cols) => Done(Ok(if caller.key in entries then entries[caller.key] else cols))
    case Done(r) => Done(r)
  }

  function NextEntries(entries: map<CacheKey, Cols>, caller: Caller): map<CacheKey, Cols> {
    if caller.phase.Storing? && caller.key !in entries then entries[caller.key := caller.phase.cols] else entries
  }

  /** Caller i takes one atomic step. */
  function Step(s: Shared, i: nat): Shared
    requires i < |s.callers|
  {
    var caller := s.callers[i];
    Shared(NextEntries(s.entries, caller), s.callers[i := caller.(phase := NextPhase(s.entries, caller))])
  }

  /** The state after the callers have moved in this order. */
  function Run(s: Shared, schedule: seq<nat>): Shared
    requires forall k :: 0 <= k < |schedule| ==> schedule[k] < |s.callers|
    ensures |Run(s, schedule).callers| == |s.callers|
  {
    if schedule == [] then s
    else
      var n := |schedule| - 1;
      Step(Run(s, schedule[..n]), schedule[n])
  }

  ghost predicate CacheInvariant(s: Shared) {
    && Faithful(s.entries)
    && (forall i :: 0 <= i < |s.callers| && s.callers[i].phase.Storing? ==>
          DerivedFor(s.callers[i].key) == Ok(s.callers[i].phase.cols))
    && (forall i :: 0 <= i < |s.callers| && s.callers[i].phase.Done? ==>
          s.callers[i].phase.result == DerivedFor(s.callers[i].key))
  }

  lemma StepKeepsInvariant(s: Shared, i: nat)
    requires i < |s.callers| && CacheInvariant(s)
    ensures CacheInvariant(Step(s, i))
  {
  }

  /** However the callers interleave, one that is done has what a fresh derivation gives, and an
      entry once stored is never replaced. */
  lemma {:induction false} EveryInterleavingIsFaithful(s: Shared, schedule: seq<nat>)
    requires forall k :: 0 <= k < |schedule| ==> schedule[k] < |s.callers|
    requires Faithful(s.entries) && forall c :: c in s.callers ==> c.phase == Loading
    ensures CacheInvariant(Run(s, schedule))
    ensures forall key :: key in s.entries ==>
            key in Run(s, schedule).entries && Run(s, schedule).entries[key] == s.entries[key]
    ensures forall i :: 0 <= i < |s.callers| ==> Run(s, schedule).callers[i].key == s.callers[i].key
  {
    if schedule == [] {
    } else {
      var n := |schedule| - 1;
      EveryInterleavingIsFaithful(s, schedule[..n]);
      StepKeepsInvariant(Run(s, schedule[..n]), schedule[n]);
    }
  }
}
