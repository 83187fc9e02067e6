/**
 The three spend tables. Each row is identified by (id, window) through a unique index, carries a primary key
 `uid`, and stores its amount as NUMERIC(65,18): a whole number of 10^-18, below 10^65 in size.
 */
module SpendStore {
  import opened Powers
  import opened Wrappers
  import opened Decimals
  import opened Leases

  datatype Key = Key(id: Id, window: Window)

  type Uid = int

  datatype Table = Table(spend: map<Key, int>, uid: map<Key, Uid>)
  {
    predicate Valid() {
      && spend.Keys == uid.Keys
      && forall j, k :: j in uid && k in uid && uid[j] == uid[k] ==> j == k
    }
  }

  const EMPTY := Table(map[], map[])

  datatype Tables = Tables(orders: Table, projects: Table, accounts: Table)
  {
    predicate Valid() {
      orders.Valid() && projects.Valid() && accounts.Valid()
    }
  }

  const NUMERIC_SCALE: int := 18
  const NUMERIC_PRECISION: nat := 65

  /** An amount as the column stores it, in units of 10^-18; nothing for one the column cannot hold. */
  function StoredForm(d: Decimal): Option<int> {
    match d
    case Infinite(_) => None
    case Finite(dec) =>
      var n :=
        if dec.exp >= -NUMERIC_SCALE then dec.coeff * Pow10(dec.exp + NUMERIC_SCALE)
        else HalfUp(dec.coeff, Pow10(-NUMERIC_SCALE - dec.exp));
      if Abs(n) < Pow10(NUMERIC_PRECISION) then Some(n) else None
  }

  /**
   Insert, or update the amount of the row that already has this key. A new row whose uid is taken
   violates the primary key.
   */
  function Upsert(t: Table, key: Key, uid: Uid, spend: Decimal): Option<Table> {
    var stored := StoredForm(spend);
    if stored.None? then
      None
    else if key in t.spend then
      Some(t.(spend := t.spend[key := stored.value]))
    else if uid in t.uid.Values then
      None
    else
      Some(Table(t.spend[key := stored.value], t.uid[key := uid]))
  }

  /** The database takes the row: the column can hold the amount, and a new row finds its uid free. */
  predicate Accepts(t: Table, key: Key, uid: Uid, spend: Decimal) {
    StoredForm(spend).Some? && (key in t.spend || uid !in t.uid.Values)
  }

  /** The row has the amount, and its uid if it is new; an existing row keeps its own. Every other row is as before. */
  ghost predicate Upserted(before: Table, after: Table, key: Key, uid: Uid, amount: int) {
    && after.spend.Keys == before.spend.Keys + {key}
    && after.spend[key] == amount
    && (forall k :: k in before.spend && k != key ==> after.spend[k] == before.spend[k])
    && after.uid == if key in before.spend then before.uid else before.uid[key := uid]
  }

  lemma UpsertWritesOneRow(t: Table, key: Key, uid: Uid, spend: Decimal)
    ensures Upsert(t, key, uid, spend).Some? <==> Accepts(t, key, uid, spend)
    ensures Accepts(t, key, uid, spend) ==>
              Upserted(t, Upsert(t, key, uid, spend).value, key, uid, StoredForm(spend).value)
  {
    hide StoredForm;
  }

  /** The description leaves no freedom. */
  lemma UpsertedTableIsUnique(t: Table, a: Table, b: Table, key: Key, uid: Uid, amount: int)
    requires Upserted(t, a, key, uid, amount) && Upserted(t, b, key, uid, amount)
    ensures a == b
  {
    forall k | k in a.spend ensures a.spend[k] == b.spend[k] {
      assert k in t.spend.Keys + {key};
    }
  }

  lemma UpsertKeepsTableValid(t: Table, key: Key, uid: Uid, spend: Decimal)
    requires t.Valid() && Upsert(t, key, uid, spend).Some?
    ensures Upsert(t, key, uid, spend).value.Valid()
    ensures Upsert(t, key, uid, spend).value.spend == t.spend[key := StoredForm(spend).value]
    ensures forall k :: k in t.uid ==> Upsert(t, key, uid, spend).value.uid[k] == t.uid[k]
  {}

  /** With one uid for every row, a table never grows beyond one row. */
  lemma ConstantUidAllowsOneRow(t: Table, key: Key, uid: Uid, spend: Decimal)
    requires t.Valid() && StoredForm(spend).Some?
    requires forall k :: k in t.uid ==> t.uid[k] == uid
    ensures |t.spend| <= 1
    ensures Upsert(t, key, uid, spend).Some? <==> t.spend.Keys <= {key}
  {
    if k :| k in t.uid {
      assert t.uid.Keys <= {k};
      OneKey(t.spend, k);
      assert uid in t.uid.Values;
    }
  }

  lemma OneKey(m: map<Key, int>, k: Key)
    requires m.Keys <= {k}
    ensures |m| <= 1
  {
    if k in m.Keys {
      assert m.Keys == {k};
    } else {
      assert m.Keys == {};
    }
    assert |m| == |m.Keys|;
  }

  /** Units of 10^ETINY in one unit of the column. */
  function StoredUnit(): (unit: nat)
    ensures unit >= 1
  {
    Pow10(-NUMERIC_SCALE - ETINY)
  }

  /** Storing an amount rounds it to the nearest unit of the column: at most half a unit away. */
  lemma StoredFormError(d: Dec)
    requires d.exp >= ETINY && StoredForm(Finite(d)).Some?
    ensures 2 * Abs(StoredForm(Finite(d)).value * StoredUnit() - Units(d)) <= StoredUnit()
    ensures Abs(Units(d)) < Pow10(NUMERIC_PRECISION - NUMERIC_SCALE - ETINY)
  {
    hide Pow10, HalfUp;
    var n := StoredForm(Finite(d)).value;
    if d.exp >= -NUMERIC_SCALE {
      UnitsScale(d.coeff, d.exp + NUMERIC_SCALE, -NUMERIC_SCALE);
    } else {
      ShiftedError(d.coeff, -NUMERIC_SCALE - d.exp, d.exp - ETINY);
    }
    StoredBelow(n, Units(d), NUMERIC_PRECISION, -NUMERIC_SCALE - ETINY);
  }

  /** A value within half a unit of a number below 10^p is itself below 10^p units. */
  lemma StoredBelow(n: int, u: int, p: nat, shift: nat)
    requires Abs(n) < Pow10(p)
    requires 2 * Abs(n * Pow10(shift) - u) <= Pow10(shift)
    ensures Abs(u) < Pow10(p + shift)
  {
    Pow10Add(p, shift);
    AbsProduct(n, Pow10(shift));
    MulMono(Abs(n), Pow10(p) - 1, Pow10(shift));
    DistributeMinus(Pow10(p), 1, Pow10(shift));
  }
}
