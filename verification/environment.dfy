/** The variable environment: a fixed number of slots, each free or holding one named,
    tagged value. Slots are filled by `let` and never freed; lookup is a linear scan from
    the first slot comparing names exactly. */
module Environment {
  import opened Wrappers
  import opened Values

  /** The slot count of the interpreter's global table. */
  const VarsCapacity: nat := 128

  datatype Var = Var(name: string, val: Value)

  /** A free slot is `None`; the table's length never changes during a run. */
  type Env = seq<Option<Var>>

  function EmptyEnv(capacity: nat): (env: Env)
    ensures |env| == capacity
    ensures forall i :: 0 <= i < capacity ==> env[i].None?
  {
    seq(capacity, _ => None)
  }

  /** Slot `i` is occupied by a variable called `name`. */
  predicate Holds(env: Env, i: int, name: string) {
    0 <= i < |env| && env[i].Some? && env[i].value.name == name
  }

  predicate Declared(env: Env, name: string) {
    exists i :: 0 <= i < |env| && Holds(env, i, name)
  }

  predicate Full(env: Env) {
    forall i :: 0 <= i < |env| ==> env[i].Some?
  }

  /** No two occupied slots share a name. */
  predicate UniqueNames(env: Env) {
    forall i, j :: 0 <= i < j < |env| && env[i].Some? && env[j].Some? ==> env[i].value.name != env[j].value.name
  }

  /** The first slot at or after `from` holding `name`. */
  function FindFrom(env: Env, name: string, from: nat): (r: Option<nat>)
    requires from <= |env|
    ensures r.Some? ==> from <= r.value && Holds(env, r.value, name)
    ensures r.Some? ==> forall j :: from <= j < r.value ==> !Holds(env, j, name)
    ensures r.None? ==> forall j :: from <= j < |env| ==> !Holds(env, j, name)
    decreases |env| - from
  {
    if from == |env| then None
    else if env[from].Some? && env[from].value.name == name then Some(from)
    else FindFrom(env, name, from + 1)
  }

  /** The variable lookup: the first occupied slot whose name matches exactly. */
  function Find(env: Env, name: string): (r: Option<nat>)
    ensures r.Some? ==> Holds(env, r.value, name) && forall j :: 0 <= j < r.value ==> !Holds(env, j, name)
    ensures r.None? <==> !Declared(env, name)
  {
    FindFrom(env, name, 0)
  }

  /** The first free slot at or after `from`. */
  function FreeFrom(env: Env, from: nat): (r: Option<nat>)
    requires from <= |env|
    ensures r.Some? ==> from <= r.value < |env| && env[r.value].None?
    ensures r.Some? ==> forall j :: from <= j < r.value ==> env[j].Some?
    ensures r.None? ==> forall j :: from <= j < |env| ==> env[j].Some?
    decreases |env| - from
  {
    if from == |env| then None
    else if env[from].None? then Some(from)
    else FreeFrom(env, from + 1)
  }

  function FirstFree(env: Env): (r: Option<nat>)
    ensures r.Some? ==> r.value < |env| && env[r.value].None? && forall j :: 0 <= j < r.value ==> env[j].Some?
    ensures r.None? <==> Full(env)
  {
    FreeFrom(env, 0)
  }

  /** The slot scan `let` performs before anything else: a name already declared is an
      error even when the table is also full; otherwise the first free slot is chosen. */
  function Reserve(env: Env, name: string): (r: Result<nat, Error>)
    ensures r == Err(Redeclared(name)) <==> Declared(env, name)
    ensures r == Err(CapacityExceeded) <==> !Declared(env, name) && Full(env)
    ensures r.Err? ==> r.error == Redeclared(name) || r.error == CapacityExceeded
    ensures r.Ok? ==> r.value < |env| && env[r.value].None?
    ensures r.Ok? ==> forall j :: 0 <= j < r.value ==> env[j].Some?
  {
    if Find(env, name).Some? then Err(Redeclared(name))
    else
      match FirstFree(env)
      case None => Err(CapacityExceeded)
      case Some(i) => Ok(i)
  }

  /** Reading an identifier: the value in the first slot with that name. */
  function ReadVar(env: Env, name: string): (r: Result<Value, Error>)
    ensures r.Err? <==> !Declared(env, name)
    ensures r.Err? ==> r.error == Undefined(name)
    ensures r.Ok? ==> exists i :: Holds(env, i, name) && env[i].value.val == r.value
    ensures r.Ok? && UniqueNames(env) ==> forall i :: Holds(env, i, name) ==> env[i].value.val == r.value
  {
    match Find(env, name)
    case None => Err(Undefined(name))
    case Some(i) => Ok(env[i].value.val)
  }

  /** Overwrite the value of the occupied slot `i`, keeping its name. */
  function Store(env: Env, i: nat, v: Value): (r: Env)
    requires i < |env| && env[i].Some?
    ensures |r| == |env|
    ensures r[i] == Some(Var(env[i].value.name, v))
    ensures forall j :: 0 <= j < |env| && j != i ==> r[j] == env[j]
  {
    env[i := Some(Var(env[i].value.name, v))]
  }

  /** What assignments may not change: which slots are taken, by which name, with which tag. */
  function Shape(slot: Option<Var>): Option<(string, Tag)> {
    match slot
    case None => None
    case Some(v) => Some((v.name, TagOf(v.val)))
  }

  predicate SameShape(a: Env, b: Env) {
    |a| == |b| && forall i :: 0 <= i < |a| ==> Shape(a[i]) == Shape(b[i])
  }

  /** `b` is `a` after some declarations: no slot is freed, renamed or retagged. */
  predicate Grows(a: Env, b: Env) {
    |a| == |b| && forall i :: 0 <= i < |a| && a[i].Some? ==> Shape(b[i]) == Shape(a[i])
  }

  /** Storing a value of the slot's own tag keeps the shape, and changes nothing else. */
  lemma StoreKeepsShape(env: Env, i: nat, v: Value)
    requires i < |env| && env[i].Some? && TagOf(v) == TagOf(env[i].value.val)
    ensures SameShape(env, Store(env, i, v))
    ensures Find(Store(env, i, v), env[i].value.name) == Find(env, env[i].value.name)
  {
    var r := Store(env, i, v);
    var name := env[i].value.name;
    assert forall j :: Holds(r, j, name) <==> Holds(env, j, name);
    FindAgreesOnShape(env, r, name);
  }

  /** Lookup depends only on the shape of the table. */
  lemma FindAgreesOnShape(a: Env, b: Env, name: string)
    requires SameShape(a, b)
    ensures Find(a, name) == Find(b, name)
  {
    assert forall j :: Holds(a, j, name) <==> Holds(b, j, name) by {
      forall j | 0 <= j < |a|
        ensures Holds(a, j, name) <==> Holds(b, j, name)
      {
        assert Shape(a[j]) == Shape(b[j]);
      }
    }
  }

  lemma SameShapeGrows(a: Env, b: Env)
    requires SameShape(a, b)
    ensures Grows(a, b) && Grows(b, a)
  {
  }

  lemma GrowsTransitive(a: Env, b: Env, c: Env)
    requires Grows(a, b) && Grows(b, c)
    ensures Grows(a, c)
  {
    forall i | 0 <= i < |a| && a[i].Some?
      ensures Shape(c[i]) == Shape(a[i])
    {
      assert Shape(b[i]) == Shape(a[i]);
      assert b[i].Some?;
    }
  }

  /** Uniqueness of names is a property of the shape alone. */
  lemma SameShapeKeepsUnique(a: Env, b: Env)
    requires SameShape(a, b)
    ensures UniqueNames(a) ==> UniqueNames(b)
  {
    if UniqueNames(a) {
      forall i, j | 0 <= i < j < |b| && b[i].Some? && b[j].Some?
        ensures b[i].value.name != b[j].value.name
      {
        assert Shape(a[i]) == Shape(b[i]) && Shape(a[j]) == Shape(b[j]);
      }
    }
  }

  /** The table while a `let` initializer runs: slot `i` already carries the new name,
      with the zero-filled value a fresh slot holds, which the model reads as Nil. */
  function Reserved(env: Env, i: nat, name: string): (r: Env)
    requires i < |env|
    ensures |r| == |env| && Holds(r, i, name)
    ensures forall j :: 0 <= j < |env| && j != i ==> r[j] == env[j]
  {
    env[i := Some(Var(name, Nil))]
  }

  /** Overwriting a value never touches names, so uniqueness survives it. */
  lemma StoreKeepsUnique(env: Env, i: nat, v: Value)
    requires i < |env| && env[i].Some?
    ensures UniqueNames(env) ==> UniqueNames(Store(env, i, v))
  {
    var r := Store(env, i, v);
    if UniqueNames(env) {
      forall j, k | 0 <= j < k < |r| && r[j].Some? && r[k].Some?
        ensures r[j].value.name != r[k].value.name
      {
        assert r[j].value.name == env[j].value.name && r[k].value.name == env[k].value.name;
      }
    }
  }

  /** Reserving a free slot for an undeclared name keeps names unique. */
  lemma ReservedKeepsUnique(env: Env, i: nat, name: string)
    requires i < |env| && env[i].None? && !Declared(env, name)
    ensures UniqueNames(env) ==> UniqueNames(Reserved(env, i, name))
  {
    var r := Reserved(env, i, name);
    if UniqueNames(env) {
      forall j, k | 0 <= j < k < |r| && r[j].Some? && r[k].Some?
        ensures r[j].value.name != r[k].value.name
      {
        if j == i {
          assert !Holds(env, k, name);
        } else if k == i {
          assert !Holds(env, j, name);
        }
      }
    }
  }
}
