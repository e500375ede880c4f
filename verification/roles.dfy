/**
 * The persisted role table and its reconciliation against the catalog
 * (`Role.update_permit` in app/models.py). The table is keyed by role name.
 */
module Roles {
  import opened Wrappers
  import opened Permit

  /** One row of the roles table; `id` stays None until the database assigns one. */
  datatype RoleRec = RoleRec(id: Option<int>, name: string, permit: Mask, isDefault: bool)

  type Table = map<string, RoleRec>

  /** Each row is filed under its own (unique) name. */
  predicate WellKeyed(t: Table)
  {
    forall n :: n in t ==> t[n].name == n
  }

  /**
   * One step of the reconciliation for catalog name `n`: find the row by name
   * or create a fresh one, then overwrite its mask and default flag.
   */
  function Refresh(t: Table, n: string): (r: RoleRec)
    requires WellKeyed(t) && n in Catalog
    ensures r.name == n && r.permit == Catalog[n].0 && r.isDefault == Catalog[n].1
    ensures r.id == (if n in t then t[n].id else None)
  {
    var row := if n in t then t[n] else RoleRec(None, n, 0, false);
    row.(permit := Catalog[n].0, isDefault := Catalog[n].1)
  }

  /** The table after the loop body has run for `n`. */
  function Upsert(t: Table, n: string): (r: Table)
    requires WellKeyed(t) && n in Catalog
    ensures WellKeyed(r) && r.Keys == t.Keys + {n}
    ensures r[n] == Refresh(t, n)
    ensures forall k :: k in t && k != n ==> r[k] == t[k]
  {
    t[n := Refresh(t, n)]
  }

  /** The table after the loop body has run for every name of `done`, in any order. */
  function ReconcileOn(t: Table, done: set<string>): (r: Table)
    requires WellKeyed(t) && done <= Catalog.Keys
    ensures WellKeyed(r) && r.Keys == t.Keys + done
    ensures forall k :: k in done ==> r[k] == Refresh(t, k)
    ensures forall k :: k in t && k !in done ==> r[k] == t[k]
  {
    map n | n in t.Keys + done :: if n in done then Refresh(t, n) else t[n]
  }

  /** The table after a full `update_permit`. */
  function Reconcile(t: Table): (r: Table)
    requires WellKeyed(t)
    ensures WellKeyed(r) && r.Keys == t.Keys + Catalog.Keys
    ensures forall n :: n in Catalog ==>
      r[n].permit == Catalog[n].0 && r[n].isDefault == Catalog[n].1 &&
      r[n].id == (if n in t then t[n].id else None)
    ensures forall n :: n in t && n !in Catalog ==> r[n] == t[n]
  {
    ReconcileOn(t, Catalog.Keys)
  }

  /** Running the body for one more name extends the set of reconciled names. */
  lemma UpsertReconciled(t: Table, done: set<string>, n: string)
    requires WellKeyed(t) && done <= Catalog.Keys && n in Catalog
    ensures Upsert(ReconcileOn(t, done), n) == ReconcileOn(t, done + {n})
  {
  }

  /** Running the loop body over `names`, first to last. */
  function UpsertAll(t: Table, names: seq<string>): (r: Table)
    requires WellKeyed(t)
    requires forall i :: 0 <= i < |names| ==> names[i] in Catalog
    ensures WellKeyed(r)
    decreases |names|
  {
    if names == [] then t else UpsertAll(Upsert(t, names[0]), names[1..])
  }

  lemma {:induction false} UpsertAllFrom(t: Table, done: set<string>, names: seq<string>)
    requires WellKeyed(t) && done <= Catalog.Keys
    requires forall i :: 0 <= i < |names| ==> names[i] in Catalog
    ensures UpsertAll(ReconcileOn(t, done), names) == ReconcileOn(t, done + set n | n in names)
    decreases |names|
  {
    if names == [] {
      assert (set n | n in names) == {};
      assert done + {} == done;
    } else {
      UpsertReconciled(t, done, names[0]);
      UpsertAllFrom(t, done + {names[0]}, names[1..]);
      assert done + {names[0]} + (set n | n in names[1..]) == done + set n | n in names;
    }
  }

  /**
   * Order independence: visiting the catalog names in any order (repeats
   * allowed) gives the same table as `Reconcile`.
   */
  lemma {:induction false} AnyOrderReconciles(t: Table, order: seq<string>)
    requires WellKeyed(t)
    requires (set n | n in order) == Catalog.Keys
    ensures UpsertAll(t, order) == Reconcile(t)
  {
    assert forall i :: 0 <= i < |order| ==> order[i] in (set n | n in order);
    var start := ReconcileOn(t, {});
    assert start == t;
    UpsertAllFrom(t, {}, order);
    assert {} + Catalog.Keys == Catalog.Keys;
  }

  /** Reconciling a reconciled table changes nothing. */
  lemma ReconcileIdempotent(t: Table)
    requires WellKeyed(t)
    ensures Reconcile(Reconcile(t)) == Reconcile(t)
  {
  }

  /**
   * If no row outside the catalog is flagged default, the reconciled table
   * has exactly one default row, User.
   */
  lemma ReconciledSingleDefault(t: Table)
    requires WellKeyed(t)
    requires forall n :: n in t && n !in Catalog ==> !t[n].isDefault
    ensures "User" in Reconcile(t)
    ensures forall n :: n in Reconcile(t) ==> (Reconcile(t)[n].isDefault <==> n == "User")
  {
  }

  /** `Role.query.filter_by(default=True).first()`: some default row, or None if there is none. */
  method FirstDefault(t: Table) returns (r: Option<RoleRec>)
    ensures r.Some? <==> exists n :: n in t && t[n].isDefault
    ensures r.Some? ==> r.value in t.Values && r.value.isDefault
  {
    var pending := t.Keys;
    while pending != {}
      invariant pending <= t.Keys
      invariant forall n :: n in t && n !in pending ==> !t[n].isDefault
      decreases pending
    {
      var n :| n in pending;
      if t[n].isDefault {
        return Some(t[n]);
      }
      pending := pending - {n};
    }
    return None;
  }

  /** `Role.query.filter_by(name=n).first()`. */
  function FindByName(t: Table, n: string): (r: Option<RoleRec>)
    requires WellKeyed(t)
    ensures r.Some? <==> exists k :: k in t && t[k].name == n
    ensures r.Some? ==> r.value in t.Values && r.value.name == n
  {
    if n in t then Some(t[n]) else None
  }

  /** The roles table, updated in place by `update_permit`. */
  class RoleTable {
    var rows: Table

    ghost predicate Valid()
      reads this
    {
      WellKeyed(rows)
    }

    constructor(rows: Table)
      requires WellKeyed(rows)
      ensures Valid() && this.rows == rows
    {
      this.rows := rows;
    }

    /** `Role.update_permit`: upsert every catalog entry, in whatever order the names come. */
    method UpdatePermit()
      requires Valid()
      modifies this
      ensures Valid()
      ensures rows == Reconcile(old(rows))
    {
      var pending := Catalog.Keys;
      while pending != {}
        invariant pending <= Catalog.Keys
        invariant WellKeyed(old(rows))
        invariant rows == ReconcileOn(old(rows), Catalog.Keys - pending)
        decreases pending
      {
        var name :| name in pending;
        UpsertReconciled(old(rows), Catalog.Keys - pending, name);
        rows := Upsert(rows, name);
        assert Catalog.Keys - pending + {name} == Catalog.Keys - (pending - {name});
        pending := pending - {name};
      }
      assert Catalog.Keys - pending == Catalog.Keys;
    }
  }

  /** Running `update_permit` twice leaves the table as one run does. */
  method UpdatePermitTwice(table: RoleTable)
    requires table.Valid()
    modifies table
    ensures table.Valid()
    ensures table.rows == Reconcile(old(table.rows))
  {
    table.UpdatePermit();
    table.UpdatePermit();
    ReconcileIdempotent(old(table.rows));
  }
}
