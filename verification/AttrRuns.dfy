/** Whole runs of the attribute store: setting, adding and internalizing (src/repodata.c), against one cell for every name of every entry. */
module AttrRuns {
  import opened ArrayCache
  import opened AttrStore
  import opened Bytes
  import opened Fields
  import opened Internalize
  import opened Merge
  import opened Packing
  import opened Serialize
  import opened SetAttr

  // ---- one cell ----

  /** What one name of one entry stands for, and what is pending for it. */
  datatype Cell = Cell(stored: Option<seq<KeyValue>>, pending: Option<seq<KeyValue>>)

  datatype Op = Set(values: seq<KeyValue>) | Add(value: KeyValue) | Merge

  /** One step for a name whose values are of type t: merging keeps of a value what fits into its packed form. */
  function Step(c: Cell, op: Op, t: KeyType): Cell {
    match op
    case Set(values) => c.(pending := Some(values))
    case Add(value) => c.(pending := Some((if c.pending.Some? then c.pending.value else []) + [value]))
    case Merge => Cell(if c.pending.Some? then KeptValues(t, c.pending) else c.stored, None)
  }

  function KeptValues(t: KeyType, values: Option<seq<KeyValue>>): Option<seq<KeyValue>> {
    if values.Some? then Some(CutAll(t, values.value)) else None
  }

  function Run(ops: seq<Op>, t: KeyType): Cell {
    if ops == [] then Cell(None, None) else Step(Run(ops[..|ops| - 1], t), ops[|ops| - 1], t)
  }

  /** The last value set since the last merge, with the elements added behind it. */
  function Elements(ops: seq<Op>): seq<KeyValue> {
    if ops == [] then []
    else
      match ops[|ops| - 1]
      case Set(values) => values
      case Add(value) => Elements(ops[..|ops| - 1]) + [value]
      case Merge => []
  }

  /** The last value that was set, or made by adding. */
  function Latest(ops: seq<Op>): Option<seq<KeyValue>> {
    if ops == [] then None
    else if ops[|ops| - 1].Merge? then Latest(ops[..|ops| - 1])
    else Some(Elements(ops))
  }

  /** What was done up to the last merge. */
  function UpToMerge(ops: seq<Op>): seq<Op> {
    if ops == [] || ops[|ops| - 1].Merge? then ops else UpToMerge(ops[..|ops| - 1])
  }

  /** After any rounds, a name stands for what is kept of the latest value up to the last merge. */
  lemma {:induction false} Rounds(ops: seq<Op>, t: KeyType)
    ensures Run(ops, t).stored == KeptValues(t, Latest(UpToMerge(ops)))
    ensures Run(ops, t).pending == if ops == [] || ops[|ops| - 1].Merge? then None else Some(Elements(ops))
    ensures Run(ops, t).pending.Some? ==> Run(ops, t).pending == Latest(ops)
    ensures Run(ops, t).pending.None? ==> Run(ops, t).stored == KeptValues(t, Latest(ops)) && Elements(ops) == []
  {
    if ops != [] { Rounds(ops[..|ops| - 1], t); }
  }

  // ---- the cells of a store ----

  datatype State = State(keys: seq<Repokey>, lists: seq<seq<nat>>, entries: seq<Entry>, st: Store, pendings: seq<seq<Attr>>)

  ghost predicate Right(s: State) {
    && ValidEntries(s.keys, s.lists, s.entries) && Pendings(s.keys, s.st, s.pendings) && |s.entries| == |s.pendings|
  }

  /** The values of a field, as they are fetched from it. */
  ghost function FieldValues(key: Repokey, f: seq<Byte>): seq<KeyValue> {
    var r := FetchAll(Layout(key.ktype), key.size, f, 0);
    if r.Some? then r.value.0 else []
  }

  /** What a lookup of the name in the packed entry gives. */
  ghost function Stored(keys: seq<Repokey>, lists: seq<seq<nat>>, e: Entry, meta: bool, name: nat): Option<seq<KeyValue>>
    requires ValidEntry(keys, lists, e, meta)
  {
    var v := ViewOf(keys, lists, e, meta, name);
    if v.Some? then Some(FieldValues(keys[v.value.0], v.value.1)) else None
  }

  /** What is pending under the name. */
  ghost function Waiting(keys: seq<Repokey>, st: Store, list: seq<Attr>, name: nat): Option<seq<KeyValue>>
    requires NamesDistinct(keys, list)
  {
    var a := PendingNamed(keys, list, name);
    if a.Some? then Some(AttrValues(keys, st, a.value)) else None
  }

  ghost function CellIn(s: State, j: nat, name: nat): Cell
    requires Right(s) && j < |s.entries|
  {
    Cell(Stored(s.keys, s.lists, s.entries[j], j == 0, name), Waiting(s.keys, s.st, s.pendings[j], name))
  }

  // ---- a key is made ----

  lemma {:induction false} FirstGrows(keys: seq<Repokey>, more: seq<Repokey>, ks: seq<nat>, name: nat)
    requires keys <= more && KeysBelow(ks, |keys|)
    ensures FirstNamed(more, ks, name) == FirstNamed(keys, ks, name)
  {
    if ks != [] { FirstGrows(keys, more, ks[1..], name); }
  }

  lemma {:induction false} NamedGrows(keys: seq<Repokey>, more: seq<Repokey>, list: seq<Attr>, name: nat)
    requires keys <= more && forall i :: 0 <= i < |list| ==> list[i].key < |keys|
    ensures PendingNamed(more, list, name) == PendingNamed(keys, list, name)
  {
    if list != [] { NamedGrows(keys, more, list[1..], name); }
  }

  lemma KeyMadeRight(s: State, keys: seq<Repokey>, key: Repokey)
    requires Right(s) && KeyMade(s.keys, keys, key)
    ensures Right(s.(keys := keys))
  {
    hide ValidEntries, Pendings;
    if keys != s.keys {
      EntriesGrow(s.keys, key, s.lists, s.entries);
      PendingsGrow(s.keys, key, s.st, s.pendings);
    }
  }

  /** A new key changes no cell. */
  lemma KeyMadeCell(s: State, keys: seq<Repokey>, j: nat, name: nat)
    requires Right(s) && s.keys <= keys && Right(s.(keys := keys)) && j < |s.entries|
    ensures CellIn(s.(keys := keys), j, name) == CellIn(s, j, name)
  {
    var e, list := s.entries[j], s.pendings[j];
    assert ValidEntry(s.keys, s.lists, e, j == 0) && PendingStored(s.keys, s.st, list) && NamesDistinct(s.keys, list);
    assert ValidEntry(keys, s.lists, e, j == 0) && NamesDistinct(keys, list);
    FirstGrows(s.keys, keys, s.lists[e.schema], name);
    NamedGrows(s.keys, keys, list, name);
    PendingNamedIs(s.keys, list, name);
    hide FetchAll, PendingNamed, InStore, Values;
  }

  // ---- the three steps ----

  /** An attribute is set. */
  lemma SetCell(s: State, st: Store, news: seq<seq<Attr>>, j: nat, a: Attr, j2: nat, name: nat)
    requires Right(s) && Grown(s.st, st) && j < |s.entries| && a.key < |s.keys| && j2 < |s.entries|
    requires KeysIn(s.keys, s.pendings[j]) && news == s.pendings[j := Put(s.keys, s.pendings[j], a)]
    requires Right(s.(st := st, pendings := news))
    ensures CellIn(s.(st := st, pendings := news), j2, name) ==
      if j2 == j && name == s.keys[a.key].name then Step(CellIn(s, j2, name), Set(AttrValues(s.keys, st, a)), s.keys[a.key].ktype) else CellIn(s, j2, name)
  {
    assert NamesDistinct(s.keys, s.pendings[j2]) && NamesDistinct(s.keys, news[j2]);
    GrownKeeps(s.keys, s.st, s.pendings, st);
    hide AttrStored, PendingStored, PendingNamed, ValidEntries, Put, Stored, AttrValues;
    if j2 == j { PutMeans(s.keys, s.pendings[j], a, name); }
    PendingNamedIs(s.keys, s.pendings[j2], name);
  }

  /** An element is added. */
  lemma AddCell(s: State, st: Store, news: seq<seq<Attr>>, j: nat, named: nat, t: KeyType, v: KeyValue, j2: nat, name: nat)
    requires Right(s) && j < |s.entries| && j2 < |s.entries| && Right(s.(st := st, pendings := news))
    requires Extended(s.keys, s.st, s.pendings, st, news, j, named, t, v)
    requires KeysIn(s.keys, s.pendings[j]) && (PendingNamed(s.keys, s.pendings[j], named).None? || Pends(s.keys, s.pendings[j], named, t))
    ensures CellIn(s.(st := st, pendings := news), j2, name) ==
      if j2 == j && name == named then Step(CellIn(s, j2, name), Add(v), t) else CellIn(s, j2, name)
  {
    hide ValidEntries, Pendings, PendingNamed, Stored, AttrValues, AttrStored;
    if j2 != j || name != named {
      assert NameKeptIn(s.keys, s.st, s.pendings, st, news, j2, name);
    }
  }

  lemma PendingKeyNamed(keys: seq<Repokey>, st: Store, list: seq<Attr>, name: nat)
    requires PendingStored(keys, st, list)
    ensures var a := PendingNamed(keys, list, name);
      a.Some? ==> 0 < a.value.key < |keys| && keys[a.value.key].name == name && AttrStored(keys, st, a.value)
  {
    PendingNamedIs(keys, list, name);
  }

  /** Everything pending is merged. */
  lemma MergeCell(s: State, lists: seq<seq<nat>>, entries: seq<Entry>, st: Store, none: seq<seq<Attr>>, j: nat, name: nat, t: KeyType)
    requires Right(s) && AllSound(s.keys, s.st, s.pendings) && OneKeyPerName(s.keys) && name != SOLVABLES && j < |s.entries| == |entries|
    requires forall i :: 1 <= i < |s.keys| && s.keys[i].name == name ==> s.keys[i].ktype == t
    requires AllMerged(s.keys, s.st, s.lists, s.entries, s.pendings, lists, entries)
    requires Right(s.(lists := lists, entries := entries, st := st, pendings := none)) && none[j] == []
    ensures CellIn(s.(lists := lists, entries := entries, st := st, pendings := none), j, name) == Step(CellIn(s, j, name), Merge, t)
  {
    var e, e' := s.entries[j], entries[j];
    assert ValidEntry(s.keys, s.lists, e, j == 0) && PendingStored(s.keys, s.st, s.pendings[j]);
    assert EntryMerged(s.keys, s.st, s.lists, e, s.pendings[j], j == 0, lists, e') && PendingSound(s.keys, s.st, s.pendings[j]);
    PendingKeyNamed(s.keys, s.st, s.pendings[j], name);
    hide ValidEntries, Pendings, AllMerged, PendingSound, AllSound, CutAll, EntryMerged, PendingStored, ValidEntry;
    InternalizeOverlays(s.keys, s.st, s.lists, e, s.pendings[j], j == 0, lists, e', name);
    hide ViewOf, InStore, Values, FetchAll;
  }

  // ---- calls ----

  datatype Call =
    | SetPlain(j: nat, key: Repokey, val: Int32)
    | SetStr(j: nat, name: nat, str: seq<Byte>)
    | SetChecksum(j: nat, name: nat, t: KeyType, sum: seq<Byte>)
    | SetBinary(j: nat, name: nat, buf: seq<Byte>)
    | SetIdArray(j: nat, name: nat, q: seq<Id31>)
    | AddIdArray(j: nat, name: nat, id: Id31)
    | AddDirNumNum(j: nat, name: nat, dir: Id31, num: Id31, num2: Id31)
    | AddDirStr(j: nat, name: nat, dir: Id31, str: seq<Byte>)
    | Internalize

  /** The key that a call makes, if there is none. */
  function KeyOfCall(c: Call): Repokey {
    match c
    case SetPlain(_, key, _) => key
    case SetStr(_, name, _) => Repokey(name, Str, 0)
    case SetChecksum(_, name, t, _) => Repokey(name, t, 0)
    case SetBinary(_, name, _) => Repokey(name, Binary, 0)
    case SetIdArray(_, name, _) => Repokey(name, IdArray, 0)
    case AddIdArray(_, name, _) => Repokey(name, IdArray, 0)
    case AddDirNumNum(_, name, _, _, _) => Repokey(name, DirNumNumArray, 0)
    case AddDirStr(_, name, _, _) => Repokey(name, DirStrArray, 0)
    case Internalize => Repokey(SOLVABLES, FlexArray, 0)
  }

  predicate IsConstant(t: KeyType) { t.Void? || t.Constant? || t.ConstantId? }

  predicate PlainFits(c: Call) {
    c.SetPlain? ==> (IsConstant(c.key.ktype) && c.val == 0) || (IsNumber(c.key.ktype) && c.val != -1 && c.val != -2)
  }

  /** What the call does to a name that it is about. */
  function OpOfCall(c: Call): Op
    requires PlainFits(c)
  {
    match c
    case SetPlain(_, key, val) => Set(Values(key.ktype, key.size, Store([], []), val))
    case SetStr(_, _, str) => Set([NO_VALUE.(str := str)])
    case SetChecksum(_, _, _, sum) => Set([NO_VALUE.(str := sum)])
    case SetBinary(_, _, buf) => Set([NO_VALUE.(num := |buf|, str := buf)])
    case SetIdArray(_, _, q) => Set(IdList(UpToZero(q)))
    case AddIdArray(_, _, id) => Add(NO_VALUE.(id := id))
    case AddDirNumNum(_, _, dir, num, num2) => Add(KeyValue(dir, num, num2, []))
    case AddDirStr(_, _, dir, str) => Add(NO_VALUE.(id := dir, str := str))
    case Internalize => Merge
  }

  /** The value has a packed form, and the key is the only one of its name. */
  predicate CallFits(c: Call, n: nat, keyOf: nat -> Repokey) {
    && SameKey(KeyOfCall(c), keyOf(KeyOfCall(c).name)) && (c.Internalize? || c.j < n)
    && match c
       case SetPlain(_, _, _) => PlainFits(c)
       case SetStr(_, _, str) => 0 !in str
       case SetChecksum(_, _, t, sum) => IsChecksum(t) && |sum| == ChecksumLength(t)
       case SetBinary(_, _, buf) => |buf| < BIT31
       case SetIdArray(_, _, q) => q != [] && q[0] != 0
       case AddIdArray(_, _, id) => id != 0
       case AddDirNumNum(_, _, dir, _, _) => dir != 0
       case AddDirStr(_, _, dir, str) => dir != 0 && 0 !in str
       case Internalize => true
  }

  /** What a call does to a name of an entry, if anything. */
  function OpFor(c: Call, j: nat, name: nat): seq<Op>
    requires PlainFits(c)
  {
    if c.Internalize? || (c.j == j && KeyOfCall(c).name == name) then [OpOfCall(c)] else []
  }

  function After(c: Cell, ops: seq<Op>, t: KeyType): Cell {
    if ops == [] then c else Step(After(c, ops[..|ops| - 1], t), ops[|ops| - 1], t)
  }

  lemma AfterOne(c: Cell, op: Op, t: KeyType)
    ensures After(c, [op], t) == Step(c, op, t) && After(c, [], t) == c
  {
    assert [op][..0] == [];
  }

  /** All keys are those that the names are to have. */
  ghost predicate KeysTyped(keys: seq<Repokey>, keyOf: nat -> Repokey) {
    && OneKeyPerName(keys)
    && forall i :: 1 <= i < |keys| ==> SameKey(keys[i], keyOf(keys[i].name))
  }

  lemma KeyMadeTyped(keys: seq<Repokey>, more: seq<Repokey>, key: Repokey, keyOf: nat -> Repokey)
    requires KeysTyped(keys, keyOf) && KeyMade(keys, more, key) && SameKey(key, keyOf(key.name))
    ensures KeysTyped(more, keyOf)
  {
    if more != keys {
      assert forall i :: 1 <= i < |keys| && keys[i].name == key.name ==> SameKey(keys[i], key);
    }
  }

  /** Every cell makes the step of the call. */
  ghost predicate CellsStep(s: State, s': State, c: Call, keyOf: nat -> Repokey) {
    && Right(s) && Right(s') && |s'.entries| == |s.entries| && PlainFits(c)
    && forall j: nat, name: nat :: j < |s.entries| && name != SOLVABLES ==>
        CellIn(s', j, name) == After(CellIn(s, j, name), OpFor(c, j, name), keyOf(name).ktype)
  }

  lemma SetSteps(s: State, s': State, c: Call, a: Attr, keyOf: nat -> Repokey)
    requires Right(s) && Right(s') && !c.Internalize? && OpOfCallIs(c, Set(AttrValues(s'.keys, s'.st, a)))
    requires KeyMade(s.keys, s'.keys, KeyOfCall(c)) && s'.lists == s.lists && s'.entries == s.entries && Grown(s.st, s'.st)
    requires c.j < |s.entries| && IsNamed(s'.keys, a, KeyOfCall(c).name) && KeysIn(s'.keys, s.pendings[c.j])
    requires s'.pendings == s.pendings[c.j := Put(s'.keys, s.pendings[c.j], a)]
    ensures CellsStep(s, s', c, keyOf)
  {
    var mid := s.(keys := s'.keys);
    KeyMadeRight(s, s'.keys, KeyOfCall(c));
    hide KeyMade, Right, CellIn, Put, Step, Grown;
    assert mid.(st := s'.st, pendings := s'.pendings) == s';
    forall j: nat, name: nat | j < |s.entries|
      ensures CellIn(s', j, name) == After(CellIn(s, j, name), OpFor(c, j, name), keyOf(name).ktype)
    {
      AfterOne(CellIn(s, j, name), OpOfCall(c), keyOf(name).ktype);
      KeyMadeCell(s, s'.keys, j, name);
      SetCell(mid, s'.st, s'.pendings, c.j, a, j, name);
    }
  }

  predicate OpOfCallIs(c: Call, op: Op) { PlainFits(c) && OpOfCall(c) == op }

  lemma AddSteps(s: State, s': State, c: Call, t: KeyType, v: KeyValue, keyOf: nat -> Repokey)
    requires Right(s) && Right(s') && !c.Internalize? && OpOfCallIs(c, Add(v))
    requires KeyMade(s.keys, s'.keys, KeyOfCall(c)) && s'.lists == s.lists && s'.entries == s.entries && c.j < |s.entries|
    requires KeysIn(s'.keys, s.pendings[c.j])
    requires PendingNamed(s'.keys, s.pendings[c.j], KeyOfCall(c).name).None? || Pends(s'.keys, s.pendings[c.j], KeyOfCall(c).name, t)
    requires Extended(s'.keys, s.st, s.pendings, s'.st, s'.pendings, c.j, KeyOfCall(c).name, t, v)
    ensures CellsStep(s, s', c, keyOf)
  {
    var mid := s.(keys := s'.keys);
    KeyMadeRight(s, s'.keys, KeyOfCall(c));
    hide KeyMade, Right, CellIn, Step, Extended, Pends, PendingNamed;
    assert mid.(st := s'.st, pendings := s'.pendings) == s';
    forall j: nat, name: nat | j < |s.entries|
      ensures CellIn(s', j, name) == After(CellIn(s, j, name), OpFor(c, j, name), keyOf(name).ktype)
    {
      AfterOne(CellIn(s, j, name), OpOfCall(c), keyOf(name).ktype);
      KeyMadeCell(s, s'.keys, j, name);
      AddCell(mid, s'.st, s'.pendings, c.j, KeyOfCall(c).name, t, v, j, name);
    }
  }

  lemma MadeSound(s: State, keys: seq<Repokey>, key: Repokey)
    requires Right(s) && AllSound(s.keys, s.st, s.pendings) && KeyMade(s.keys, keys, key)
    ensures AllSound(keys, s.st, s.pendings)
  {
    hide AllSound, ValidEntries, Pendings;
    if keys != s.keys { SoundGrows(s.keys, key, s.st, s.pendings); }
  }

  lemma TypedKeys(keys: seq<Repokey>, keyOf: nat -> Repokey)
    requires KeysTyped(keys, keyOf)
    ensures OneKeyPerName(keys) && forall i :: 1 <= i < |keys| ==> keys[i].ktype == keyOf(keys[i].name).ktype
  {
  }

  lemma MergeSteps(s: State, s': State, keyOf: nat -> Repokey)
    requires Right(s) && Right(s') && KeyMade(s.keys, s'.keys, KeyOfCall(Internalize)) && KeysTyped(s'.keys, keyOf)
    requires AllSound(s.keys, s.st, s.pendings)
    requires |s'.entries| == |s.entries| && forall j :: 0 <= j < |s'.pendings| ==> s'.pendings[j] == []
    requires Right(s.(keys := s'.keys)) && AllMerged(s'.keys, s.st, s.lists, s.entries, s.pendings, s'.lists, s'.entries)
    ensures CellsStep(s, s', Internalize, keyOf)
  {
    var mid := s.(keys := s'.keys);
    assert |s'.pendings| == |s'.entries|;
    hide KeyMade, Right, CellIn, Step, AllMerged, OneKeyPerName, AllSound, KeysTyped;
    MadeSound(s, s'.keys, KeyOfCall(Internalize));
    TypedKeys(s'.keys, keyOf);
    assert mid.(lists := s'.lists, entries := s'.entries, st := s'.st, pendings := s'.pendings) == s';
    forall j: nat, name: nat | j < |s.entries| && name != SOLVABLES
      ensures CellIn(s', j, name) == After(CellIn(s, j, name), OpFor(Internalize, j, name), keyOf(name).ktype)
    {
      AfterOne(CellIn(s, j, name), Merge, keyOf(name).ktype);
      KeyMadeCell(s, s'.keys, j, name);
      MergeCell(mid, s'.lists, s'.entries, s'.st, s'.pendings, j, name, keyOf(name).ktype);
    }
  }

  // ---- the calls on a store ----

  ghost function Snap(d: AttrStore.Repodata): State
    requires d.start <= d.end
    reads d, d.schemas
  {
    State(d.keys, d.schemas.lists, d.entries, d.store, d.AllPending())
  }

  lemma ValidRight(d: AttrStore.Repodata)
    requires d.Valid()
    ensures Right(Snap(d))
  {
    SameLength(d.incoredata, d.Offsets(), d.entries);
  }

  lemma PutAttr(keys: seq<Repokey>, st: Store, key: Repokey, keyid: nat, val: Int32)
    requires keyid < |keys| && SameKey(keys[keyid], key) && ((IsConstant(key.ktype) && val == 0) || IsNumber(key.ktype))
    ensures AttrValues(keys, st, Attr(keyid, val)) == Values(key.ktype, key.size, Store([], []), val)
  {
  }

  lemma PlainFacts(c: Call, n: nat, keyOf: nat -> Repokey, st: Store)
    requires CallFits(c, n, keyOf) && c.SetPlain?
    ensures c.j < n && SameKey(c.key, keyOf(c.key.name)) && KeyOfCall(c) == c.key && !IsArray(c.key.ktype)
    ensures InStore(c.key.ktype, st, c.val) && ((IsConstant(c.key.ktype) && c.val == 0) || IsNumber(c.key.ktype))
    ensures InStore(c.key.ktype, Store([], []), c.val) && OpOfCallIs(c, Set(Values(c.key.ktype, c.key.size, Store([], []), c.val)))
  {
  }

  method DoPlain(d: AttrStore.Repodata, c: Call, ghost keyOf: nat -> Repokey)
    requires d.Valid() && CallFits(c, |d.entries|, keyOf) && KeysTyped(d.keys, keyOf) && c.SetPlain?
    modifies d
    ensures d.Valid() && KeysTyped(d.keys, keyOf) && CellsStep(old(Snap(d)), Snap(d), c, keyOf)
  {
    ValidRight(d);
    PlainFacts(c, |d.entries|, keyOf, d.store);
    hide Right, Put, Values, AttrValues, KeyMade, CellsStep, KeysTyped, CallFits, KeyOfCall, OpOfCallIs, InStore, IsArray, IsNumber, IsConstant, SameKey;
    ghost var was, n := Snap(d), |d.entries|;
    ghost var keyid := d.Set(c.j, c.key, c.val);
    ValidRight(d);
    PutAttr(d.keys, d.store, c.key, keyid, c.val);
    KeyMadeTyped(was.keys, d.keys, c.key, keyOf);
    NamedLike(d.keys, keyid, c.key);
    SetSteps(was, Snap(d), c, Attr(keyid, c.val), keyOf);
  }

  lemma NamedLike(keys: seq<Repokey>, k: nat, key: Repokey)
    requires k < |keys| && SameKey(keys[k], key)
    ensures forall val :: IsNamed(keys, Attr(k, val), key.name)
  {
  }

  method DoStr(d: AttrStore.Repodata, c: Call, ghost keyOf: nat -> Repokey)
    requires d.Valid() && CallFits(c, |d.entries|, keyOf) && KeysTyped(d.keys, keyOf) && c.SetStr?
    modifies d
    ensures d.Valid() && KeysTyped(d.keys, keyOf) && CellsStep(old(Snap(d)), Snap(d), c, keyOf)
  {
    ValidRight(d);
    hide PackedRight, ValidKeys, Pendings, CacheRight, Right, Put, Values, KeyMade, CellsStep, KeysTyped, Grown;
    ghost var was := Snap(d);
    ghost var keyid, val := d.SetStr(c.j, c.name, c.str);
    ValidRight(d);
    KeyMadeTyped(was.keys, d.keys, KeyOfCall(c), keyOf);
    ghost var now, a := Snap(d), Attr(keyid, val);
    assert now.pendings == was.pendings[c.j := Put(now.keys, was.pendings[c.j], a)];
    SetSteps(was, now, c, a, keyOf);
  }

  method DoIds(d: AttrStore.Repodata, c: Call, ghost keyOf: nat -> Repokey)
    requires d.Valid() && CallFits(c, |d.entries|, keyOf) && KeysTyped(d.keys, keyOf) && c.SetIdArray?
    modifies d
    ensures d.Valid() && KeysTyped(d.keys, keyOf) && CellsStep(old(Snap(d)), Snap(d), c, keyOf)
  {
    ValidRight(d);
    hide PackedRight, ValidKeys, Pendings, CacheRight, Right, Put, Values, KeyMade, CellsStep, KeysTyped, Grown;
    ghost var was := Snap(d);
    ghost var keyid, val := d.SetIdArray(c.j, c.name, c.q);
    ValidRight(d);
    KeyMadeTyped(was.keys, d.keys, KeyOfCall(c), keyOf);
    ghost var now, a := Snap(d), Attr(keyid, val);
    assert now.pendings == was.pendings[c.j := Put(now.keys, was.pendings[c.j], a)];
    SetSteps(was, now, c, a, keyOf);
  }

  lemma BytesFacts(c: Call, n: nat, keyOf: nat -> Repokey)
    requires CallFits(c, n, keyOf) && (c.SetChecksum? || c.SetBinary?)
    ensures c.j < n && SameKey(KeyOfCall(c), keyOf(KeyOfCall(c).name))
    ensures c.SetChecksum? ==> KeyOfCall(c) == Repokey(c.name, c.t, 0) && IsChecksum(c.t) && OpOfCallIs(c, Set([NO_VALUE.(str := c.sum)]))
    ensures c.SetChecksum? ==> |c.sum| == ChecksumLength(c.t)
    ensures c.SetBinary? ==> KeyOfCall(c) == Repokey(c.name, Binary, 0) && OpOfCallIs(c, Set([NO_VALUE.(num := |c.buf|, str := c.buf)]))
  {
  }

  method DoChecksum(d: AttrStore.Repodata, c: Call, ghost keyOf: nat -> Repokey)
    requires d.Valid() && CallFits(c, |d.entries|, keyOf) && KeysTyped(d.keys, keyOf) && c.SetChecksum?
    modifies d
    ensures d.Valid() && KeysTyped(d.keys, keyOf) && CellsStep(old(Snap(d)), Snap(d), c, keyOf)
  {
    ValidRight(d);
    BytesFacts(c, |d.entries|, keyOf);
    hide Right, Put, Values, KeyMade, CellsStep, KeysTyped, Grown, CallFits, KeyOfCall, OpOfCallIs, InStore, SameKey;
    ghost var was := Snap(d);
    ghost var keyid, val := d.SetChecksum(c.j, c.name, c.t, c.sum);
    ValidRight(d);
    KeyMadeTyped(was.keys, d.keys, KeyOfCall(c), keyOf);
    BytesValues(d.keys, d.store, keyid, KeyOfCall(c), val);
    NamedLike(d.keys, keyid, KeyOfCall(c));
    SetSteps(was, Snap(d), c, Attr(keyid, val), keyOf);
  }

  method DoBinary(d: AttrStore.Repodata, c: Call, ghost keyOf: nat -> Repokey)
    requires d.Valid() && CallFits(c, |d.entries|, keyOf) && KeysTyped(d.keys, keyOf) && c.SetBinary?
    modifies d
    ensures d.Valid() && KeysTyped(d.keys, keyOf) && CellsStep(old(Snap(d)), Snap(d), c, keyOf)
  {
    ValidRight(d);
    BytesFacts(c, |d.entries|, keyOf);
    assert |c.buf| < BIT31;
    hide Right, Put, Values, KeyMade, CellsStep, KeysTyped, Grown, CallFits, KeyOfCall, OpOfCallIs, InStore, SameKey;
    ghost var was := Snap(d);
    ghost var keyid, val := d.SetBinary(c.j, c.name, c.buf);
    ValidRight(d);
    KeyMadeTyped(was.keys, d.keys, KeyOfCall(c), keyOf);
    BytesValues(d.keys, d.store, keyid, KeyOfCall(c), val);
    NamedLike(d.keys, keyid, KeyOfCall(c));
    SetSteps(was, Snap(d), c, Attr(keyid, val), keyOf);
  }

  /** The values of bytes do not depend on the size of the key. */
  lemma BytesValues(keys: seq<Repokey>, st: Store, k: nat, key: Repokey, val: int)
    requires k < |keys| && SameKey(keys[k], key) && (IsChecksum(key.ktype) || key.ktype.Binary?) && InStore(key.ktype, st, val)
    ensures AttrValues(keys, st, Attr(k, val)) == Values(key.ktype, 0, st, val)
  {
  }

  /** The store has room for what the call makes: offsets and schema numbers are ids. */
  predicate HasRoom(d: AttrStore.Repodata, c: Call)
    reads d, d.schemas
  {
    && (c.AddDirStr? ==> |d.store.attrdata| < 0x8000_0000)
    && (c.Internalize? ==> |d.schemas.schemata| + 1 + (d.end - d.start) < 0x7fff_ffff)
  }

  lemma TypedPends(keys: seq<Repokey>, keyOf: nat -> Repokey, list: seq<Attr>, key: Repokey)
    requires KeysTyped(keys, keyOf) && SameKey(key, keyOf(key.name)) && forall i :: 0 <= i < |list| ==> 0 < list[i].key < |keys|
    ensures PendingNamed(keys, list, key.name).None? || Pends(keys, list, key.name, key.ktype)
  {
    PendingNamedIs(keys, list, key.name);
    hide PendingNamed;
  }

  method DoAdd(d: AttrStore.Repodata, c: Call, ghost keyOf: nat -> Repokey)
    requires d.Valid() && CallFits(c, |d.entries|, keyOf) && KeysTyped(d.keys, keyOf) && HasRoom(d, c)
    requires c.AddIdArray? || c.AddDirNumNum? || c.AddDirStr?
    modifies d
    ensures d.Valid() && KeysTyped(d.keys, keyOf) && CellsStep(old(Snap(d)), Snap(d), c, keyOf)
  {
    ValidRight(d);
    ghost var was, key := Snap(d), KeyOfCall(c);
    d.NeverLost(c.j, key.name, key.ktype);
    hide PackedRight, ValidKeys, Pendings, CacheRight, Right, Put, Values, KeyMade, CellsStep, KeysTyped, Extended, Pends;
    match c {
      case AddIdArray(j, name, id) => d.AddIdArray(j, name, id);
      case AddDirNumNum(j, name, dir, num, num2) => d.AddDirNumNum(j, name, dir, num, num2);
      case AddDirStr(j, name, dir, str) => d.AddDirStr(j, name, dir, str);
    }
    ValidRight(d);
    KeyMadeTyped(was.keys, d.keys, key, keyOf);
    ListKeys(was.keys, was.st, was.pendings, c.j);
    TypedPends(d.keys, keyOf, was.pendings[c.j], key);
    AddSteps(was, Snap(d), c, key.ktype, OpOfCall(c).value, keyOf);
  }

  method DoInternalize(d: AttrStore.Repodata, ghost keyOf: nat -> Repokey)
    requires d.Valid() && CallFits(Internalize, |d.entries|, keyOf) && KeysTyped(d.keys, keyOf) && HasRoom(d, Internalize)
    requires AllSound(d.keys, d.store, d.AllPending())
    modifies d, d.schemas
    ensures d.Valid() && KeysTyped(d.keys, keyOf) && CellsStep(old(Snap(d)), Snap(d), Internalize, keyOf)
  {
    ValidRight(d);
    ghost var was := Snap(d);
    hide PackedRight, ValidKeys, Pendings, CacheRight, AllSound, Right, AllMerged;
    d.Internalize();
    ValidRight(d);
    KeyMadeTyped(was.keys, d.keys, KeyOfCall(Internalize), keyOf);
    MergeSteps(was, Snap(d), keyOf);
  }

  // ---- whole runs ----

  ghost predicate CallsFit(calls: seq<Call>, n: nat, keyOf: nat -> Repokey) {
    forall i :: 0 <= i < |calls| ==> CallFits(calls[i], n, keyOf)
  }

  /** What was done to a name of an entry. */
  ghost function History(calls: seq<Call>, j: nat, name: nat): seq<Op>
    requires forall i :: 0 <= i < |calls| ==> PlainFits(calls[i])
  {
    if calls == [] then [] else History(calls[..|calls| - 1], j, name) + OpFor(calls[|calls| - 1], j, name)
  }

  /** The cells are those of the calls. */
  ghost predicate CellsAre(s: State, calls: seq<Call>, keyOf: nat -> Repokey) {
    && Right(s) && (forall i :: 0 <= i < |calls| ==> PlainFits(calls[i]))
    && forall j: nat, name: nat :: j < |s.entries| && name != SOLVABLES ==> CellIn(s, j, name) == Run(History(calls, j, name), keyOf(name).ktype)
  }

  lemma RunMore(ops: seq<Op>, op: Op, t: KeyType)
    ensures Run(ops + [op], t) == Step(Run(ops, t), op, t)
  {
    assert (ops + [op])[..|ops|] == ops;
  }

  lemma OneMore(s: State, s': State, calls: seq<Call>, c: Call, keyOf: nat -> Repokey)
    requires CellsAre(s, calls, keyOf) && CellsStep(s, s', c, keyOf)
    ensures CellsAre(s', calls + [c], keyOf) && |s'.entries| == |s.entries|
  {
    hide Right, CellIn, Step, Run;
    assert (calls + [c])[..|calls|] == calls;
    forall j: nat, name: nat | j < |s'.entries| && name != SOLVABLES
      ensures CellIn(s', j, name) == Run(History(calls + [c], j, name), keyOf(name).ktype)
    {
      var ops, more := History(calls, j, name), OpFor(c, j, name);
      assert CellIn(s, j, name) == Run(ops, keyOf(name).ktype);
      if more == [] {
        assert ops + more == ops;
      } else {
        RunMore(ops, more[0], keyOf(name).ktype);
        assert more == [more[0]];
        AfterOne(CellIn(s, j, name), more[0], keyOf(name).ktype);
      }
    }
  }

  lemma NothingYet(s: State, keyOf: nat -> Repokey)
    requires Right(s) && s.lists == [[]]
    requires forall j :: 0 <= j < |s.entries| ==> s.entries[j] == Entry(0, []) && s.pendings[j] == []
    ensures CellsAre(s, [], keyOf)
  {
    hide Pendings;
    forall j: nat, name: nat | j < |s.entries| ensures CellIn(s, j, name) == Cell(None, None) {
      assert ValidEntry(s.keys, s.lists, s.entries[j], j == 0);
    }
  }

  /** Values of the type have a packed form: an array is not empty, and a number is no mark. */
  predicate GoodValues(t: KeyType, values: seq<KeyValue>) {
    && values != []
    && (t.Id? || t.Dir? ==> values[0].id != 0xffff_ffff && values[0].id != 0xffff_fffe)
    && (t.Num? ==> values[0].num != 0xffff_ffff && values[0].num != 0xffff_fffe)
  }

  lemma GoodOp(c: Call, n: nat, keyOf: nat -> Repokey, before: seq<KeyValue>)
    requires CallFits(c, n, keyOf) && !c.Internalize?
    ensures GoodValues(KeyOfCall(c).ktype, if OpOfCall(c).Set? then OpOfCall(c).values else before + [OpOfCall(c).value])
  {
  }

  lemma {:induction false} HistoryGood(calls: seq<Call>, n: nat, keyOf: nat -> Repokey, j: nat, name: nat)
    requires CallsFit(calls, n, keyOf) && keyOf(name).name == name
    ensures forall i :: 0 <= i < |calls| ==> PlainFits(calls[i])
    ensures var h := History(calls, j, name);
      h != [] && !h[|h| - 1].Merge? ==> GoodValues(keyOf(name).ktype, Elements(h))
  {
    assert forall i :: 0 <= i < |calls| ==> CallFits(calls[i], n, keyOf);
    if calls != [] {
      var front, c := calls[..|calls| - 1], calls[|calls| - 1];
      HistoryGood(front, n, keyOf, j, name);
      var ops, more := History(front, j, name), OpFor(c, j, name);
      if more == [] {
        assert ops + more == ops;
      } else {
        assert (ops + more)[..|ops|] == ops;
        if !c.Internalize? { GoodOp(c, n, keyOf, Elements(ops)); }
      }
    }
  }

  /** Cells whose values all have packed forms are those of attributes that can be merged. */
  lemma CellsSound(s: State, calls: seq<Call>, n: nat, keyOf: nat -> Repokey)
    requires CellsAre(s, calls, keyOf) && CallsFit(calls, n, keyOf) && KeysTyped(s.keys, keyOf) && keyOf(SOLVABLES).ktype.FlexArray?
    ensures AllSound(s.keys, s.st, s.pendings)
  {
    forall j, i | 0 <= j < |s.pendings| && 0 <= i < |s.pendings[j]|
      ensures 0 < s.pendings[j][i].key < |s.keys| && AttrStored(s.keys, s.st, s.pendings[j][i])
      ensures Sound(s.keys[s.pendings[j][i].key].ktype, s.st, s.pendings[j][i].val)
    {
      FitsAt(s.keys, s.st, s.pendings, j, i);
      AttrIsSound(s, calls, n, keyOf, j, i);
    }
    hide InStore, Sound, CellIn;
    forall j | 0 <= j < |s.pendings| ensures PendingSound(s.keys, s.st, s.pendings[j]) {
      assert PendingStored(s.keys, s.st, s.pendings[j]);
    }
  }

  lemma AttrIsSound(s: State, calls: seq<Call>, n: nat, keyOf: nat -> Repokey, j: nat, i: nat)
    requires CellsAre(s, calls, keyOf) && CallsFit(calls, n, keyOf) && KeysTyped(s.keys, keyOf) && keyOf(SOLVABLES).ktype.FlexArray?
    requires j < |s.pendings| && i < |s.pendings[j]| && 0 < s.pendings[j][i].key < |s.keys| && AttrStored(s.keys, s.st, s.pendings[j][i])
    ensures Sound(s.keys[s.pendings[j][i].key].ktype, s.st, s.pendings[j][i].val)
  {
    var list, a := s.pendings[j], s.pendings[j][i];
    var name, t := s.keys[a.key].name, s.keys[a.key].ktype;
    assert NamesDistinct(s.keys, list);
    FirstPlace(s.keys, list, name, i);
    PendingIsPlace(s.keys, list, name);
    assert t == keyOf(name).ktype && keyOf(name).name == name && name != SOLVABLES;
    HistoryGood(calls, n, keyOf, j, name);
    var h := History(calls, j, name);
    assert CellIn(s, j, name).pending == Some(AttrValues(s.keys, s.st, a)) == Run(h, t).pending;
    hide History, Run, CellIn, Stored, CellsAre, CallsFit, KeysTyped;
    Rounds(h, t);
    GoodIsSound(t, s.keys[a.key].size, s.st, a.val);
  }

  lemma GoodIsSound(t: KeyType, size: nat, st: Store, val: int)
    requires InStore(t, st, val) && GoodValues(t, Values(t, size, st, val))
    ensures Sound(t, st, val)
  {
  }

  method Do(d: AttrStore.Repodata, c: Call, ghost keyOf: nat -> Repokey)
    requires d.Valid() && CallFits(c, |d.entries|, keyOf) && KeysTyped(d.keys, keyOf) && HasRoom(d, c)
    requires c.Internalize? ==> AllSound(d.keys, d.store, d.AllPending())
    modifies d, d.schemas
    ensures d.Valid() && KeysTyped(d.keys, keyOf) && CellsStep(old(Snap(d)), Snap(d), c, keyOf)
  {
    hide Right, Values, KeyMade, CellsStep, KeysTyped;
    match c {
      case SetPlain(_, _, _) => DoPlain(d, c, keyOf);
      case SetStr(_, _, _) => DoStr(d, c, keyOf);
      case SetChecksum(_, _, _, _) => DoChecksum(d, c, keyOf);
      case SetBinary(_, _, _) => DoBinary(d, c, keyOf);
      case SetIdArray(_, _, _) => DoIds(d, c, keyOf);
      case AddIdArray(_, _, _) => DoAdd(d, c, keyOf);
      case AddDirNumNum(_, _, _, _, _) => DoAdd(d, c, keyOf);
      case AddDirStr(_, _, _, _) => DoAdd(d, c, keyOf);
      case Internalize => DoInternalize(d, keyOf);
    }
  }

  method Create(start: nat, num: nat, ghost keyOf: nat -> Repokey) returns (d: AttrStore.Repodata)
    ensures fresh(d) && fresh(d.schemas) && d.Valid() && |d.entries| == 1 + num
    ensures KeysTyped(d.keys, keyOf) && CellsAre(Snap(d), [], keyOf)
  {
    d := new AttrStore.Repodata(start, num);
    ValidRight(d);
    hide Right, CellsAre;
    NothingYet(Snap(d), keyOf);
  }

  /** Any run of calls with one key for each name, as long as there is room: every name of every entry stands for what its own calls say. */
  method Perform(start: nat, num: nat, calls: seq<Call>, ghost keyOf: nat -> Repokey) returns (d: AttrStore.Repodata, done: nat)
    requires CallsFit(calls, 1 + num, keyOf)
    ensures fresh(d) && fresh(d.schemas) && d.Valid() && |d.entries| == 1 + num
    ensures done <= |calls| && CellsAre(Snap(d), calls[..done], keyOf)
    ensures done < |calls| ==> !HasRoom(d, calls[done])
  {
    hide PackedRight, ValidKeys, Pendings, CacheRight, AllSound, Right, CellsAre, CellsStep, KeysTyped;
    d := Create(start, num, keyOf);
    done := 0;
    assert calls[..0] == [];
    while done < |calls|
      invariant fresh(d) && fresh(d.schemas) && d.Valid() && |d.entries| == 1 + num && done <= |calls|
      invariant KeysTyped(d.keys, keyOf) && CellsAre(Snap(d), calls[..done], keyOf)
    {
      if !HasRoom(d, calls[done]) { return; }
      ghost var was := Snap(d);
      if calls[done].Internalize? { CellsSound(was, calls[..done], 1 + num, keyOf); }
      Do(d, calls[done], keyOf);
      OneMore(was, Snap(d), calls[..done], calls[done], keyOf);
      assert calls[..done] + [calls[done]] == calls[..done + 1];
      done := done + 1;
    }
  }

  /** A lookup finds a name exactly if its cell has stored values, and a place from which they are fetched. */
  method Lookup(d: AttrStore.Repodata, j: nat, name: nat) returns (r: Option<(nat, nat)>)
    requires d.Valid() && j < |d.entries| && name != SOLVABLES
    ensures Right(Snap(d)) && (r.Some? <==> CellIn(Snap(d), j, name).stored.Some?)
    ensures r.Some? ==> d.incoredata.Some? && r.value.0 < |d.keys| && r.value.1 <= |d.incoredata.value|
    ensures r.Some? ==> FieldAt(d.keys[r.value.0], d.incoredata.value, r.value.1) == CellIn(Snap(d), j, name).stored
  {
    r := d.FindKeyData(j, name);
    ValidRight(d);
    if r.Some? {
      ViewIsField(d.keys, d.schemas.lists, d.entries[j], j == 0, name);
      var v := ViewOf(d.keys, d.schemas.lists, d.entries[j], j == 0, name);
      FetchedValues(d.keys[v.value.0], v.value.1, d.incoredata.value, r.value.1);
    }
  }

  /** All values that are fetched from a place. */
  ghost function FieldAt(key: Repokey, data: seq<Byte>, dp: nat): Option<seq<KeyValue>>
    requires dp <= |data|
  {
    var r := FetchAll(Layout(key.ktype), key.size, data, dp);
    if r.Some? then Some(r.value.0) else None
  }

  lemma ViewIsField(keys: seq<Repokey>, lists: seq<seq<nat>>, e: Entry, meta: bool, name: nat)
    requires ValidKeys(keys) && ValidEntry(keys, lists, e, meta) && name != SOLVABLES
    ensures var v := ViewOf(keys, lists, e, meta, name);
      v.Some? ==> v.value.0 < |keys| && IsField(keys[v.value.0], v.value.1)
  {
    var ks := lists[e.schema];
    var i := FirstNamed(keys, ks, name);
    if i < |ks| { assert ValidField(keys, ks, e.fields, meta, i); }
  }

  /** A name that is set to something else between two additions: the second element is lost. */
  method LoseElement(d: AttrStore.Repodata, j: nat, name: nat, first: Id31, id: Id31, second: Id31)
    requires d.Valid() && j < |d.entries| && first != 0 && second != 0
    modifies d
    ensures d.Valid() && j < |d.AllPending()| && NamesDistinct(d.keys, d.AllPending()[j])
    ensures Waiting(d.keys, d.store, d.AllPending()[j], name) == Some([NO_VALUE.(id := id)])
  {
    hide PackedRight, ValidKeys, Pendings, CacheRight, Extended, NamesStay, Put, Pends, Values, AttrValues;
    d.AddIdArray(j, name, first);
    ghost var pendings := d.AllPending();
    ghost var keyid := d.SetId(j, name, id);
    NowSet(d.keys, d.store, pendings, d.AllPending(), j, name, keyid, id);
    assert d.Lost(j, name, IdArray);
    ghost var keys, st := d.keys, d.store;
    d.AddIdArray(j, name, second);
    StillSet(keys, st, d.keys, d.store, d.AllPending(), j, name, Attr(keyid, id));
  }

  lemma NowSet(keys: seq<Repokey>, st: Store, pendings: seq<seq<Attr>>, news: seq<seq<Attr>>, j: nat, name: nat, keyid: nat, id: Id31)
    requires Pendings(keys, st, news) && j < |pendings| && KeysIn(keys, pendings[j]) && 0 < keyid < |keys|
    requires SameKey(keys[keyid], Repokey(name, Id, 0)) && news == pendings[j := Put(keys, pendings[j], Attr(keyid, id))]
    ensures KeysIn(keys, news[j]) && PendingNamed(keys, news[j], name) == Some(Attr(keyid, id)) && !Pends(keys, news[j], name, IdArray)
    ensures AttrValues(keys, st, Attr(keyid, id)) == [NO_VALUE.(id := id)]
  {
    assert PendingStored(keys, st, news[j]) && NamesDistinct(keys, news[j]);
    var a := Attr(keyid, id);
    var p := PlaceOf(keys, pendings[j], name);
    PutIs(keys, pendings[j], a, p);
    FirstPlace(keys, news[j], name, p);
    PendingIsPlace(keys, news[j], name);
  }

  lemma StillSet(keys: seq<Repokey>, st: Store, keys': seq<Repokey>, st': Store, pendings: seq<seq<Attr>>, j: nat, name: nat, a: Attr)
    requires keys <= keys' && j < |pendings| && KeysIn(keys, pendings[j]) && PendingNamed(keys, pendings[j], name) == Some(a)
    requires NamesStay(keys', st, pendings, st') && a.key < |keys|
    ensures NamesDistinct(keys', pendings[j]) && Waiting(keys', st', pendings[j], name) == Some(AttrValues(keys, st, a))
  {
    NamedGrows(keys, keys', pendings[j], name);
    assert NameKeptIn(keys', st, pendings, st', pendings, j, name);
  }

  // ---- a name that is stored under another key ----

  /** The old field of a name stays what the name stands for, when another key is pending for it. */
  lemma OldKeyStays(keys: seq<Repokey>, st: Store, lists: seq<seq<nat>>, e: Entry, pending: seq<Attr>, meta: bool,
                    lists': seq<seq<nat>>, e': Entry, name: nat)
    requires ValidEntry(keys, lists, e, meta) && PendingStored(keys, st, pending) && NamesDistinct(keys, pending) && name != SOLVABLES
    requires EntryMerged(keys, st, lists, e, pending, meta, lists', e') && PendingNamed(keys, pending, name).Some?
    requires ViewOf(keys, lists, e, meta, name).Some?
    requires ViewOf(keys, lists, e, meta, name).value.0 != PendingNamed(keys, pending, name).value.key
    ensures ViewOf(keys, lists', e', meta, name) == ViewOf(keys, lists, e, meta, name)
  {
    var k := ViewOf(keys, lists, e, meta, name).value.0;
    assert ViewOf(keys, lists', e', meta, name) == MergedView(keys, lists[e.schema], e.fields, pending, st, name);
    PendingNamedIs(keys, pending, name);
    if PendingOf(pending, k).Some? { var i := PendingIn(pending, k); }
  }

  /** Only a is pending, for entry j. */
  ghost predicate Lone(pendings: seq<seq<Attr>>, j: nat, a: Attr) {
    j < |pendings| && pendings[j] == [a] && forall i :: 0 <= i < |pendings| && i != j ==> pendings[i] == []
  }

  lemma LoneSound(keys: seq<Repokey>, st: Store, pendings: seq<seq<Attr>>, j: nat, a: Attr)
    requires Pendings(keys, st, pendings) && Lone(pendings, j, a) && a.key < |keys| && AttrStored(keys, st, a)
    requires Sound(keys[a.key].ktype, st, a.val)
    ensures AllSound(keys, st, pendings) && PendingNamed(keys, pendings[j], keys[a.key].name) == Some(a)
  {
    hide InStore, Sound;
    forall i | 0 <= i < |pendings| ensures PendingSound(keys, st, pendings[i]) {
      assert PendingStored(keys, st, pendings[i]);
    }
  }

  /** After one merge of a lone attribute into an entry in which the name was not stored. */
  lemma FirstMerge(s: State, s': State, j: nat, a: Attr)
    requires Right(s) && Right(s') && s.keys <= s'.keys && Lone(s.pendings, j, a) && j < |s'.entries| && a.key < |s.keys|
    requires Right(s.(keys := s'.keys)) && |s.entries| == |s'.entries| && s.keys[a.key].name != SOLVABLES
    requires AllSound(s'.keys, s.st, s.pendings) && ViewOf(s.keys, s.lists, s.entries[j], j == 0, s.keys[a.key].name).None?
    requires AllMerged(s'.keys, s.st, s.lists, s.entries, s.pendings, s'.lists, s'.entries)
    requires InStore(s.keys[a.key].ktype, s.st, a.val) && Fits(s.keys[a.key].ktype, s.st, a.val)
    ensures ValidEntry(s'.keys, s'.lists, s'.entries[j], j == 0)
    ensures var v := ViewOf(s'.keys, s'.lists, s'.entries[j], j == 0, s.keys[a.key].name);
      v.Some? && v.value.0 == a.key &&
      Complete(s.keys[a.key].ktype, s.keys[a.key].size, v.value.1, Values(s.keys[a.key].ktype, s.keys[a.key].size, s.st, a.val))
  {
    var name, e := s.keys[a.key].name, s.entries[j];
    assert ValidEntry(s.keys, s.lists, e, j == 0) && ValidEntry(s'.keys, s.lists, e, j == 0);
    FirstGrows(s.keys, s'.keys, s.lists[e.schema], name);
    assert EntryMerged(s'.keys, s.st, s.lists, e, s.pendings[j], j == 0, s'.lists, s'.entries[j]);
    assert PendingSound(s'.keys, s.st, s.pendings[j]);
    assert PendingNamed(s'.keys, s.pendings[j], name) == Some(a);
    InternalizeExact(s'.keys, s.st, s.lists, e, s.pendings[j], j == 0, s'.lists, s'.entries[j], name);
  }

  /** After merging a lone attribute of another key. */
  lemma SecondMerge(s: State, s': State, j: nat, a: Attr, k: nat)
    requires Right(s) && Right(s') && s.keys <= s'.keys && Lone(s.pendings, j, a) && j < |s'.entries| && a.key < |s.keys| && a.key != k
    requires Right(s.(keys := s'.keys)) && |s.entries| == |s'.entries| && s.keys[a.key].name != SOLVABLES
    requires AllMerged(s'.keys, s.st, s.lists, s.entries, s.pendings, s'.lists, s'.entries)
    requires var v := ViewOf(s.keys, s.lists, s.entries[j], j == 0, s.keys[a.key].name); v.Some? && v.value.0 == k
    ensures CellIn(s', j, s.keys[a.key].name).stored == CellIn(s, j, s.keys[a.key].name).stored
  {
    var name, e := s.keys[a.key].name, s.entries[j];
    assert ValidEntry(s.keys, s.lists, e, j == 0) && ValidEntry(s'.keys, s.lists, e, j == 0);
    FirstGrows(s.keys, s'.keys, s.lists[e.schema], name);
    assert EntryMerged(s'.keys, s.st, s.lists, e, s.pendings[j], j == 0, s'.lists, s'.entries[j]);
    assert PendingStored(s'.keys, s.st, s.pendings[j]) && NamesDistinct(s'.keys, s.pendings[j]);
    assert PendingNamed(s'.keys, s.pendings[j], name) == Some(a);
    OldKeyStays(s'.keys, s.st, s.lists, e, s.pendings[j], j == 0, s'.lists, s'.entries[j], name);
  }

  lemma EmptyView(keys: seq<Repokey>, lists: seq<seq<nat>>, e: Entry, meta: bool, name: nat)
    requires ValidEntry(keys, lists, e, meta) && lists[e.schema] == []
    ensures ViewOf(keys, lists, e, meta, name).None?
  {
  }

  lemma PutLone(keys: seq<Repokey>, pendings: seq<seq<Attr>>, news: seq<seq<Attr>>, j: nat, a: Attr)
    requires j < |pendings| && (forall i :: 0 <= i < |pendings| ==> pendings[i] == []) && a.key < |keys| && KeysIn(keys, pendings[j])
    requires news == pendings[j := Put(keys, pendings[j], a)]
    ensures Lone(news, j, a)
  {
    assert [] + [a] == [a];
  }

  /** A name is stored in entry j under the key k, with the values, and nothing is pending. */
  ghost predicate StoredUnder(s: State, j: nat, name: nat, k: nat, values: seq<KeyValue>) {
    && Right(s) && j < |s.entries| && (forall i :: 0 <= i < |s.pendings| ==> s.pendings[i] == [])
    && (var v := ViewOf(s.keys, s.lists, s.entries[j], j == 0, name); v.Some? && v.value.0 == k)
    && CellIn(s, j, name).stored == Some(values)
  }

  /** A new store with an id pending. */
  method PendingId(start: nat, num: nat, j: nat, name: nat, id: Id31) returns (d: AttrStore.Repodata, ghost k: nat)
    requires j <= num
    ensures fresh(d) && fresh(d.schemas) && d.Valid() && |d.entries| == |d.AllPending()| == 1 + num && d.schemas.lists == [[]]
    ensures 0 < k < |d.keys| && SameKey(d.keys[k], Repokey(name, Id, 0)) && d.end - d.start == num
    ensures Lone(d.AllPending(), j, Attr(k, id)) && d.entries[j] == Entry(0, [])
  {
    d := new AttrStore.Repodata(start, num);
    ghost var pendings := d.AllPending();
    hide PackedRight, ValidKeys, CacheRight, Pendings, Put, Lone;
    k := d.SetId(j, name, id);
    PutLone(d.keys, pendings, d.AllPending(), j, Attr(k, id));
  }

  /** What is known of a store with only an id pending before it is merged. */
  lemma BeforeFirst(s: State, j: nat, k: nat, name: nat, id: Id31)
    requires Right(s) && Lone(s.pendings, j, Attr(k, id)) && 0 < k < |s.keys| && SameKey(s.keys[k], Repokey(name, Id, 0))
    requires j < |s.entries| && s.entries[j] == Entry(0, []) && s.lists == [[]]
    ensures AllSound(s.keys, s.st, s.pendings) && ViewOf(s.keys, s.lists, s.entries[j], j == 0, name).None?
    ensures InStore(Id, s.st, id) && Fits(Id, s.st, id) && Values(Id, s.keys[k].size, s.st, id) == [NO_VALUE.(id := id)]
  {
    LoneSound(s.keys, s.st, s.pendings, j, Attr(k, id));
    assert ValidEntry(s.keys, s.lists, s.entries[j], j == 0);
    EmptyView(s.keys, s.lists, s.entries[j], j == 0, name);
  }

  /** What is known of it after the merge. */
  lemma AfterFirst(s: State, s': State, key: Repokey, j: nat, k: nat, name: nat, id: Id31)
    requires Right(s) && Right(s') && Lone(s.pendings, j, Attr(k, id)) && 0 < k < |s.keys| && SameKey(s.keys[k], Repokey(name, Id, 0))
    requires j < |s.entries| == |s'.entries| && s.entries[j] == Entry(0, []) && s.lists == [[]] && name != SOLVABLES
    requires KeyMade(s.keys, s'.keys, key) && forall i :: 0 <= i < |s'.pendings| ==> s'.pendings[i] == []
    requires Right(s.(keys := s'.keys)) && AllMerged(s'.keys, s.st, s.lists, s.entries, s.pendings, s'.lists, s'.entries)
    ensures StoredUnder(s', j, name, k, [NO_VALUE.(id := id)])
  {
    BeforeFirst(s, j, k, name, id);
    MadeSound(s, s'.keys, key);
    hide Right, Lone, AllSound, AllMerged, InStore, Fits, Values, KeyMade;
    FirstMerge(s, s', j, Attr(k, id));
  }

  /** A store with an id in it. */
  method StoreId(start: nat, num: nat, j: nat, name: nat, id: Id31) returns (d: AttrStore.Repodata, ghost k: nat)
    requires j <= num < 0x1000_0000 && name != SOLVABLES
    ensures fresh(d) && fresh(d.schemas) && d.Valid() && |d.entries| == 1 + num && |d.schemas.lists| <= 2 + num
    ensures k < |d.keys| && d.keys[k].ktype == Id && StoredUnder(Snap(d), j, name, k, [NO_VALUE.(id := id)])
  {
    d, k := PendingId(start, num, j, name, id);
    ValidRight(d);
    ghost var s := Snap(d);
    BeforeFirst(s, j, k, name, id);
    hide Right, Lone, AllSound, AllMerged, PackedRight, Pendings, CacheRight, ValidKeys, StoredUnder, ValidEntries, KeyMade, InStore, Fits, Values, ViewOf, SameKey;
    d.Internalize();
    ValidRight(d);
    KeyMadeRight(s, d.keys, Repokey(SOLVABLES, FlexArray, 0));
    AfterFirst(s, Snap(d), Repokey(SOLVABLES, FlexArray, 0), j, k, name, id);
  }

  /** What is known when a string is pending for a name that is stored under a key of another type. */
  lemma AfterSecond(s: State, s1: State, s': State, key: Repokey, j: nat, name: nat, k: nat, a: Attr, values: seq<KeyValue>)
    requires StoredUnder(s, j, name, k, values) && k < |s.keys| && s.keys[k].ktype != Str && name != SOLVABLES
    requires Right(s1) && s1.lists == s.lists && s1.entries == s.entries && KeyMade(s.keys, s1.keys, Repokey(name, Str, 0))
    requires a.key < |s1.keys| && SameKey(s1.keys[a.key], Repokey(name, Str, 0)) && Lone(s1.pendings, j, a)
    requires Right(s') && KeyMade(s1.keys, s'.keys, key) && |s'.entries| == |s1.entries|
    requires Right(s1.(keys := s'.keys)) && AllMerged(s'.keys, s1.st, s1.lists, s1.entries, s1.pendings, s'.lists, s'.entries)
    ensures CellIn(s', j, name).stored == Some(values)
  {
    var e := s.entries[j];
    assert ValidEntry(s.keys, s.lists, e, j == 0) && ValidEntry(s1.keys, s1.lists, e, j == 0);
    FirstGrows(s.keys, s1.keys, s.lists[e.schema], name);
    hide AllMerged, Right, KeyMade, FetchAll;
    SecondMerge(s1, s', j, a, k);
  }

  /** Where a name is stored under a key of another type, setting a string has no effect on what is found afterwards. */
  method SetOtherType(d: AttrStore.Repodata, j: nat, name: nat, str: seq<Byte>, ghost k: nat, ghost values: seq<KeyValue>)
    requires d.Valid() && StoredUnder(Snap(d), j, name, k, values) && k < |d.keys| && d.keys[k].ktype != Str && name != SOLVABLES
    requires 0 !in str && |d.schemas.lists| + |d.entries| < 0x7fff_ffff && d.end - d.start < 0x8000_0000
    modifies d, d.schemas
    ensures d.Valid() && Right(Snap(d)) && |d.entries| == old(|d.entries|) && CellIn(Snap(d), j, name).stored == Some(values)
  {
    ghost var s := Snap(d);
    hide Right, Lone, AllSound, AllMerged, PackedRight, Pendings, CacheRight, ValidKeys, ValidEntries, KeyMade, Put, Grown, InStore, Values, CellIn;
    ghost var keyid, val := d.SetStr(j, name, str);
    ghost var s1, a := Snap(d), Attr(keyid, val);
    PutLone(s1.keys, s.pendings, s1.pendings, j, a);
    ValidRight(d);
    StrSound(s1.keys, s1.st, s1.pendings, j, a);
    d.Internalize();
    ValidRight(d);
    KeyMadeRight(s1, d.keys, Repokey(SOLVABLES, FlexArray, 0));
    AfterSecond(s, s1, Snap(d), Repokey(SOLVABLES, FlexArray, 0), j, name, k, a, values);
  }

  lemma StrSound(keys: seq<Repokey>, st: Store, pendings: seq<seq<Attr>>, j: nat, a: Attr)
    requires Pendings(keys, st, pendings) && Lone(pendings, j, a) && a.key < |keys| && keys[a.key].ktype == Str
    ensures AllSound(keys, st, pendings)
  {
    FitsAt(keys, st, pendings, j, 0);
    LoneSound(keys, st, pendings, j, a);
  }

  /** Set an id, internalize, set a string, internalize: a lookup still gives the id. */
  method KeepOldType(start: nat, num: nat, j: nat, name: nat, id: Id31, str: seq<Byte>) returns (d: AttrStore.Repodata)
    requires j <= num < 0x1000_0000 && name != SOLVABLES && 0 !in str
    ensures d.Valid() && Right(Snap(d)) && |d.entries| == 1 + num && CellIn(Snap(d), j, name).stored == Some([NO_VALUE.(id := id)])
  {
    ghost var k;
    d, k := StoreId(start, num, j, name, id);
    hide StoredUnder, Right, CellIn;
    SetOtherType(d, j, name, str, k, [NO_VALUE.(id := id)]);
  }
}
