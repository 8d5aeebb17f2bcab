/** The object factory of the operating system library, as the dynamic
    pipe factory test pins it down: objects are registered under a name
    with a reference counter. Finding a name adds a reference, creating
    an existing name fails, duplicating a reference adds one, and
    releasing drops one; the object leaves the registry when its last
    reference goes. */
module Factory {
  import opened Common

  type Name = string

  /** An object's identity: its address. */
  type ObjId = nat

  /** A reference to a registered object. The element an object embeds
      carries its name, so a reference knows it. */
  datatype Obj = Obj(id: ObjId, name: Name)

  /** A registry entry: the object, its reference counter and the size it
      was created with (the pipe buffer size for dynamic pipes). */
  datatype Entry = Entry(id: ObjId, refs: nat, size: nat)

  /** The registry: the entry of every registered name, and the identity
      the next created object receives. */
  datatype Registry = Registry(entries: map<Name, Entry>, nextId: ObjId)

  /** Every registered object has at least one reference and an identity
      handed out before; no two names share an object. */
  predicate Valid(r: Registry) {
    (forall n :: n in r.entries ==> r.entries[n].refs > 0 && r.entries[n].id < r.nextId)
    && (forall n, m :: n in r.entries && m in r.entries && n != m ==> r.entries[n].id != r.entries[m].id)
  }

  /** `o` refers to an object that is still registered. */
  predicate Live(r: Registry, o: Obj) {
    o.name in r.entries && r.entries[o.name].id == o.id
  }

  /** The reference count of a live object. */
  function Refs(r: Registry, o: Obj): (k: nat)
    requires Live(r, o)
  {
    r.entries[o.name].refs
  }

  /** Every entry other than `name`'s is the same in `r` and `s`. */
  predicate OthersUnchanged(r: Registry, s: Registry, name: Name) {
    (forall n :: n in r.entries && n != name ==> n in s.entries && s.entries[n] == r.entries[n])
    && (forall n :: n in s.entries && n != name ==> n in r.entries)
  }

  /** The registry at start-up: empty. */
  function Empty(): (r: Registry)
    ensures Valid(r)
    ensures forall n: Name :: n !in r.entries
  {
    Registry(map[], 0)
  }

  /** Looking an object up by name. When it is registered the caller gets
      a new reference to it. */
  function Find(r: Registry, name: Name): (res: (Registry, Option<Obj>))
    requires Valid(r)
    ensures Valid(res.0)
    ensures res.1.Some? <==> name in r.entries
    ensures res.1.None? ==> res.0 == r
    ensures res.1.Some? ==>
              Live(r, res.1.value) && Live(res.0, res.1.value) && res.1.value.name == name
              && Refs(res.0, res.1.value) == Refs(r, res.1.value) + 1
              && res.0.entries[name].size == r.entries[name].size
    ensures OthersUnchanged(r, res.0, name) && res.0.nextId == r.nextId
  {
    if name in r.entries then
      var e := r.entries[name];
      (r.(entries := r.entries[name := e.(refs := e.refs + 1)]), Some(Obj(e.id, name)))
    else (r, None)
  }

  /** Creating an object under a name. A name already registered makes the
      creation fail; otherwise the new object holds one reference, the
      creator's. */
  function Create(r: Registry, name: Name, size: nat): (res: (Registry, Option<Obj>))
    requires Valid(r)
    ensures Valid(res.0)
    ensures res.1.None? <==> name in r.entries
    ensures res.1.None? ==> res.0 == r
    ensures res.1.Some? ==>
              Live(res.0, res.1.value) && res.1.value.name == name
              && Refs(res.0, res.1.value) == 1 && res.0.entries[name].size == size
              && (forall n :: n in r.entries ==> r.entries[n].id != res.1.value.id)
    ensures OthersUnchanged(r, res.0, name)
  {
    if name in r.entries then (r, None)
    else
      (Registry(r.entries[name := Entry(r.nextId, 1, size)], r.nextId + 1), Some(Obj(r.nextId, name)))
  }

  /** Adding a reference to a live object; the caller gets the same
      object back. */
  function Duplicate(r: Registry, o: Obj): (res: (Registry, Obj))
    requires Valid(r) && Live(r, o)
    ensures Valid(res.0)
    ensures res.1 == o && Live(res.0, o)
    ensures Refs(res.0, o) == Refs(r, o) + 1
    ensures OthersUnchanged(r, res.0, o.name) && res.0.nextId == r.nextId
  {
    var e := r.entries[o.name];
    (r.(entries := r.entries[o.name := e.(refs := e.refs + 1)]), o)
  }

  /** Dropping a reference to a live object. The last reference takes the
      object out of the registry. */
  function Release(r: Registry, o: Obj): (s: Registry)
    requires Valid(r) && Live(r, o)
    ensures Valid(s)
    ensures Refs(r, o) == 1 <==> o.name !in s.entries
    ensures Refs(r, o) > 1 ==> Live(s, o) && Refs(s, o) == Refs(r, o) - 1
    ensures OthersUnchanged(r, s, o.name) && s.nextId == r.nextId
  {
    var e := r.entries[o.name];
    if e.refs == 1 then r.(entries := r.entries - {o.name})
    else r.(entries := r.entries[o.name := e.(refs := e.refs - 1)])
  }

  /** Releasing a reference undoes duplicating it. */
  lemma DuplicateThenRelease(r: Registry, o: Obj)
    requires Valid(r) && Live(r, o)
    ensures Release(Duplicate(r, o).0, o) == r
  {
    var e := r.entries[o.name];
    assert r.entries[o.name := e] == r.entries;
  }

  /** Releasing the reference a successful find handed out undoes the
      find. */
  lemma FindThenRelease(r: Registry, name: Name)
    requires Valid(r) && name in r.entries
    ensures Release(Find(r, name).0, Find(r, name).1.value) == r
  {
    var e := r.entries[name];
    assert r.entries[name := e] == r.entries;
  }

  /** A created object is found under its name: the same object. */
  lemma CreateThenFind(r: Registry, name: Name, size: nat)
    requires Valid(r) && name !in r.entries
    ensures Find(Create(r, name, size).0, name).1 == Create(r, name, size).1
  {
  }

  /** Releasing a live object as many times as it has references removes
      it, and touches no other name. */
  lemma {:induction false} ReleaseAllRemoves(r: Registry, o: Obj)
    requires Valid(r) && Live(r, o)
    ensures o.name !in ReleaseTimes(r, o, Refs(r, o)).entries
    ensures OthersUnchanged(r, ReleaseTimes(r, o, Refs(r, o)), o.name)
    decreases Refs(r, o)
  {
    var k := Refs(r, o);
    if k > 1 {
      var s := Release(r, o);
      ReleaseAllRemoves(s, o);
      ReleaseTimesStep(r, o, k);
    }
  }

  /** The registry after `k` releases of `o`, stopping once it is gone:
      the object teardown's loop. */
  function ReleaseTimes(r: Registry, o: Obj, k: nat): (res: Registry)
    requires Valid(r)
    ensures Valid(res)
    decreases k
  {
    if k == 0 || !Live(r, o) then r else ReleaseTimes(Release(r, o), o, k - 1)
  }

  lemma ReleaseTimesStep(r: Registry, o: Obj, k: nat)
    requires Valid(r) && Live(r, o) && k > 0
    ensures ReleaseTimes(r, o, k) == ReleaseTimes(Release(r, o), o, k - 1)
  {
  }

  /** The dynamic pipe factory test: a name never created is not found;
      creating it succeeds and creating it again fails; finding it gives
      the same object with two references, duplicating gives three, two
      releases bring it back to one, and the last release removes the
      name, so finding it fails again. */
  lemma FactoryTest(r0: Registry, name: Name, size: nat)
    requires Valid(r0) && name !in r0.entries
    ensures Find(r0, name).1.None?
    ensures var c := Create(r0, name, size);
            c.1.Some?
            && Create(c.0, name, size).1.None?
            && var f := Find(c.0, name);
            f.1 == c.1 && Refs(f.0, f.1.value) == 2
            && var d := Duplicate(f.0, f.1.value);
            d.1 == f.1.value && Refs(d.0, d.1) == 3
            && var r1 := Release(d.0, d.1);
            Live(r1, d.1) && Refs(r1, d.1) == 2
            && var r2 := Release(r1, d.1);
            Live(r2, d.1) && Refs(r2, d.1) == 1
            && var r3 := Release(r2, d.1);
            Find(r3, name).1.None?
  {
  }
}
