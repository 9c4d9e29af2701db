/**
 * The price-table updater: remote price updates merged into the rows of an
 * item table loaded as generic JSON. Prices are float64 in the program; here
 * they are values of a type `F` compared only by equality, and reading the
 * text of a `json.Number` as a float is the parameter `parse`.
 */
module UpdatePrices {
  import opened Wrappers
  import opened Collections

  /** A JSON value as decoded into an empty interface. */
  datatype Json<F> =
    | Float(f: F)          // float64
    | Number(text: string) // json.Number, still as text
    | Str(s: string)
    | Bool(b: bool)
    | Null                 // nil, also what an absent key reads as
    | Composite            // an array or an object

  type Row<F> = map<string, Json<F>>

  const PriceKey := "price"
  const LastUpdateKey := "last_update"

  /** One entry of the remote price feed. */
  datatype PriceUpdate<F> = PriceUpdate(price: F, lastUpdate: F)

  /** The value under `key`, or nil when the row has no such key. */
  function Get<F>(row: Row<F>, key: string): (v: Json<F>)
    ensures key !in row ==> v == Null
    ensures key in row ==> v == row[key]
  {
    if key in row then row[key] else Null
  }

  /** The number a JSON value denotes: a float64 itself, a json.Number when its text parses. */
  function NumericValue<F>(v: Json<F>, parse: string -> Option<F>): Option<F> {
    match v
    case Float(f) => Some(f)
    case Number(t) => parse(t)
    case _ => None
  }

  /** The type switch of `equalJSONNumber`. */
  function EqualJsonNumber<F(==)>(prev: Json<F>, now: F, parse: string -> Option<F>): (r: bool)
    ensures r <==> NumericValue(prev, parse) == Some(now)
  {
    match prev
    case Float(v) => v == now
    case Number(t) =>
      (match parse(t)
       case Some(f) => f == now
       case None => false)
    case _ => false
  }

  /** Only a float64 or a json.Number can be equal to a price; a string or nil never is. */
  lemma EqualOnlyNumbers<F>(prev: Json<F>, now: F, parse: string -> Option<F>)
    ensures EqualJsonNumber(prev, now, parse) ==> prev.Float? || prev.Number?
    ensures prev.Float? ==> (EqualJsonNumber(prev, now, parse) <==> prev.f == now)
    ensures prev.Number? && parse(prev.text).None? ==> !EqualJsonNumber(prev, now, parse)
  {
  }

  /** The comparison cases of the updater's unit test. */
  lemma EqualJsonNumberCases<F>(parse: string -> Option<F>, one: F, oneHalf: F, zero: F)
    requires parse("1") == Some(one) && parse("1.5") == Some(oneHalf) && parse("bad") == None
    ensures EqualJsonNumber(Float(one), one, parse)
    ensures EqualJsonNumber(Number("1"), one, parse)
    ensures EqualJsonNumber(Number("1.5"), oneHalf, parse)
    ensures !EqualJsonNumber(Number("bad"), zero, parse)
    ensures !EqualJsonNumber(Str("1"), one, parse)
    ensures !EqualJsonNumber(Null, zero, parse)
  {
  }

  /** The row after both price fields are overwritten. */
  function Updated<F>(row: Row<F>, u: PriceUpdate<F>): (r: Row<F>)
    ensures r.Keys == row.Keys + {PriceKey, LastUpdateKey}
    ensures r[PriceKey] == Float(u.price) && r[LastUpdateKey] == Float(u.lastUpdate)
    ensures forall k :: k in row && k != PriceKey && k != LastUpdateKey ==> r[k] == row[k]
  {
    row[PriceKey := Float(u.price)][LastUpdateKey := Float(u.lastUpdate)]
  }

  /** A merged row counts as changed unless both old fields already held the new numbers. */
  predicate RowChanged<F(==)>(row: Row<F>, u: PriceUpdate<F>, parse: string -> Option<F>) {
    !EqualJsonNumber(Get(row, PriceKey), u.price, parse)
    || !EqualJsonNumber(Get(row, LastUpdateKey), u.lastUpdate, parse)
  }

  /** A row without a price, or without a last update, always counts as changed. */
  lemma MissingKeyChanges<F>(row: Row<F>, u: PriceUpdate<F>, parse: string -> Option<F>)
    requires PriceKey !in row || LastUpdateKey !in row
    ensures RowChanged(row, u, parse)
  {
  }

  /** The updates whose ids are not in `ids`. */
  function Without<F>(updates: map<string, PriceUpdate<F>>, ids: set<string>): (r: map<string, PriceUpdate<F>>)
    ensures r.Keys == updates.Keys - ids
    ensures forall id :: id in r ==> r[id] == updates[id]
  {
    map id | id in updates && id !in ids :: updates[id]
  }

  /** The table after the merge: rows named by an update are updated, no row is added. */
  function Merged<F>(rows: map<string, Row<F>>, updates: map<string, PriceUpdate<F>>): (r: map<string, Row<F>>)
    ensures r.Keys == rows.Keys
    ensures forall id :: id in rows && id in updates ==> r[id] == Updated(rows[id], updates[id])
    ensures forall id :: id in rows && id !in updates ==> r[id] == rows[id]
  {
    map id | id in rows :: if id in updates then Updated(rows[id], updates[id]) else rows[id]
  }

  /** The ids of `ids` that name an existing row and change it. */
  function ChangedIn<F(==)>(rows: map<string, Row<F>>, updates: map<string, PriceUpdate<F>>,
                            ids: set<string>, parse: string -> Option<F>): (r: set<string>)
    ensures r <= ids * updates.Keys * rows.Keys
    ensures forall id :: id in ids && id in updates && id in rows ==>
              (id in r <==> RowChanged(rows[id], updates[id], parse))
  {
    set id | id in ids && id in updates && id in rows && RowChanged(rows[id], updates[id], parse)
  }

  /** The change count never exceeds the number of updates. */
  lemma ChangedAtMostTotal<F>(rows: map<string, Row<F>>, updates: map<string, PriceUpdate<F>>,
                                  parse: string -> Option<F>)
    ensures |ChangedIn(rows, updates, updates.Keys, parse)| <= |updates|
  {
    var c := ChangedIn(rows, updates, updates.Keys, parse);
    assert c <= updates.Keys;
    SubsetCard(c, updates.Keys);
  }

  lemma {:induction false} SubsetCard<K>(a: set<K>, b: set<K>)
    requires a <= b
    ensures |a| <= |b|
    decreases |b|
  {
    if a != {} {
      HasElement(a);
      var k :| k in a;
      SubsetCard(a - {k}, b - {k});
    }
  }

  /** Merging the same updates again changes no row and counts nothing. */
  lemma MergeIdempotent<F>(rows: map<string, Row<F>>, updates: map<string, PriceUpdate<F>>,
                               parse: string -> Option<F>)
    ensures Merged(Merged(rows, updates), updates) == Merged(rows, updates)
    ensures ChangedIn(Merged(rows, updates), updates, updates.Keys, parse) == {}
  {
    var m := Merged(rows, updates);
    forall id | id in m && id in updates
      ensures Updated(m[id], updates[id]) == m[id]
      ensures !RowChanged(m[id], updates[id], parse)
    {
      var u := updates[id];
      assert Get(m[id], PriceKey) == Float(u.price);
      assert Get(m[id], LastUpdateKey) == Float(u.lastUpdate);
    }
  }

  /** Taking one more id off the pending set applies its update. */
  lemma MergedStep<F>(rows: map<string, Row<F>>, updates: map<string, PriceUpdate<F>>,
                      remaining: set<string>, id: string)
    requires id in updates && id in remaining
    ensures var before := Merged(rows, Without(updates, remaining));
            var after := Merged(rows, Without(updates, remaining - {id}));
            (id in rows ==> id in before && before[id] == rows[id]
                            && after == before[id := Updated(rows[id], updates[id])])
            && (id !in rows ==> id !in before && after == before)
  {
    var w, w' := Without(updates, remaining), Without(updates, remaining - {id});
    assert w'.Keys == w.Keys + {id};
    var before, after := Merged(rows, w), Merged(rows, w');
    if id in rows {
      var want := before[id := Updated(rows[id], updates[id])];
      forall k | k in after
        ensures after[k] == want[k]
      {
        if k != id {
          assert k in w' <==> k in w;
        }
      }
      assert after.Keys == want.Keys;
    } else {
      forall k | k in after
        ensures after[k] == before[k]
      {
        assert k in w' <==> k in w;
      }
      assert after.Keys == before.Keys;
    }
  }

  /** Taking one more id off the pending set removes it from the changes still to count. */
  lemma ChangedStep<F>(rows: map<string, Row<F>>, updates: map<string, PriceUpdate<F>>,
                       remaining: set<string>, id: string, parse: string -> Option<F>)
    requires id in updates && id in remaining
    ensures var before := ChangedIn(rows, updates, remaining, parse);
            var after := ChangedIn(rows, updates, remaining - {id}, parse);
            if id in rows && RowChanged(rows[id], updates[id], parse)
            then before == after + {id} && |before| == |after| + 1
            else after == before
  {
  }

  /** The item table of the updater, whose rows the merge changes in place. */
  class Table<F(==)> {
    var rows: map<string, Row<F>>

    constructor (rows: map<string, Row<F>>)
      ensures this.rows == rows
    {
      this.rows := rows;
    }

    /**
     * Applies every update whose id names an existing row, in any order, and
     * returns how many of those rows changed and how many updates there were.
     */
    method MergePrices(updates: map<string, PriceUpdate<F>>, parse: string -> Option<F>)
      returns (changed: nat, total: nat)
      modifies this
      ensures rows == Merged(old(rows), updates)
      ensures total == |updates|
      ensures changed == |ChangedIn(old(rows), updates, updates.Keys, parse)|
    {
      ghost var start := rows;
      ghost var all := |ChangedIn(start, updates, updates.Keys, parse)|;
      changed, total := 0, 0;
      var remaining := updates.Keys;
      assert Without(updates, remaining) == map[];
      while remaining != {}
        invariant remaining <= updates.Keys
        invariant total + |remaining| == |updates.Keys|
        invariant changed + |ChangedIn(start, updates, remaining, parse)| == all
        invariant rows == Merged(start, Without(updates, remaining))
        decreases |remaining|
      {
        HasElement(remaining);
        var id :| id in remaining;
        MergedStep(start, updates, remaining, id);
        ChangedStep(start, updates, remaining, id, parse);
        var rowChanged := MergeOne(id, updates[id], parse);
        total := total + 1;
        changed := changed + if rowChanged then 1 else 0;
        remaining := remaining - {id};
      }
      assert Without(updates, {}) == updates;
    }

    /** One turn of the merge loop: overwrite the row's price fields and report whether it changed. */
    method MergeOne(id: string, u: PriceUpdate<F>, parse: string -> Option<F>) returns (rowChanged: bool)
      modifies this
      ensures id in old(rows) ==> rows == old(rows)[id := Updated(old(rows)[id], u)]
      ensures id !in old(rows) ==> rows == old(rows)
      ensures rowChanged <==> id in old(rows) && RowChanged(old(rows)[id], u, parse)
    {
      rowChanged := false;
      if id in rows {
        var row := rows[id];
        var prevPrice := Get(row, PriceKey);
        var prevLastUpdate := Get(row, LastUpdateKey);
        rows := rows[id := Updated(row, u)];
        if !EqualJsonNumber(prevPrice, u.price, parse) || !EqualJsonNumber(prevLastUpdate, u.lastUpdate, parse) {
          rowChanged := true;
        }
      }
    }
  }

  /**
   * The updater's merge scenario: row "100" holds json.Number prices that
   * differ from its update, row "200" has no update, and the update for "300"
   * names no row.
   */
  lemma MergeScenario<F>(parse: string -> Option<F>, two: F, twoK: F, p: F, lu: F, p3: F, lu3: F)
    requires parse("1") != Some(p)
    ensures var rows := map["100" := map["name" := Str("foo"), PriceKey := Number("1"), LastUpdateKey := Number("1000")],
                             "200" := map["name" := Str("bar"), PriceKey := Float(two), LastUpdateKey := Float(twoK)]];
            var updates := map["100" := PriceUpdate(p, lu), "300" := PriceUpdate(p3, lu3)];
            var m := Merged(rows, updates);
            |updates| == 2
            && |ChangedIn(rows, updates, updates.Keys, parse)| == 1
            && m["100"][PriceKey] == Float(p) && m["100"][LastUpdateKey] == Float(lu)
            && m["100"]["name"] == Str("foo")
            && m["200"] == rows["200"]
            && "300" !in m
  {
    var rows := map["100" := map["name" := Str("foo"), PriceKey := Number("1"), LastUpdateKey := Number("1000")],
                    "200" := map["name" := Str("bar"), PriceKey := Float(two), LastUpdateKey := Float(twoK)]];
    var updates := map["100" := PriceUpdate(p, lu), "300" := PriceUpdate(p3, lu3)];
    assert "100" != "300" && "100" != "200" && "200" != "300";
    assert "name" != PriceKey && "name" != LastUpdateKey;
    assert updates.Keys == {"100", "300"};
    assert RowChanged(rows["100"], updates["100"], parse);
    assert ChangedIn(rows, updates, updates.Keys, parse) == {"100"};
  }
}
