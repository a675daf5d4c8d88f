/** Listing regions or zones of the running service page by page. */
module Listing {
  import opened Wrappers
  import opened Slugs
  import opened Domain
  import opened Database
  import opened CatalogueRules
  import opened Lro
  import opened LroTheorems
  import opened Paging

  function KeyFor(regions: bool, id: Id): Key { if regions then RegionKey(id) else ZoneKey(id) }

  /** The regions (or the zones) of a table, in the order of the primary-key index. */
  ghost predicate IsIndex(less: Order, regions: bool, table: Table, rows: seq<Entry<Row>>) {
    && Sorted(less, rows)
    && (forall e | e in rows :: KeyFor(regions, e.id) in table && table[KeyFor(regions, e.id)] == e.data)
    && (forall id | KeyFor(regions, id) in table :: HasId(rows, id))
  }

  lemma IndexIsTokenSafe(less: Order, regions: bool, s: Sys, rows: seq<Entry<Row>>)
    requires Reached(s) && IsIndex(less, regions, s.db.table, rows)
    ensures TokenSafe(rows)
  {
    CatalogueIsValid(s);
    forall e | e in rows ensures ValidID(e.id) {
      assert ValidRow(KeyFor(regions, e.id), s.db.table[KeyFor(regions, e.id)]);
    }
    SlugTablesAreTokenSafe(rows);
  }

  /** A client follows the tokens while the service goes on working: call k meets the committed tables of
      states[k]. No token it was given is refused, no id comes twice, each page shows rows committed when it
      was asked for, and once a page carries no token every resource present at each call was shown. */
  lemma CatalogueScan(less: Order, regions: bool, states: seq<Sys>, indexes: seq<seq<Entry<Row>>>, sizes: seq<nat>)
    requires StrictOrder(less) && |states| == |indexes| == |sizes|
    requires forall k | 0 <= k < |sizes| :: sizes[k] >= 1
    requires forall k | 0 <= k < |states| ::
      Reached(states[k]) && IsIndex(less, regions, states[k].db.table, indexes[k])
    ensures Paging.Scan(less, indexes, sizes, []).Some?
    ensures var pages := Paging.Scan(less, indexes, sizes, []).value;
      var rows := Rows(pages);
      && |pages| <= |states|
      && (forall i, j | 0 <= i < |rows| && 0 <= j < |rows| && rows[i].id == rows[j].id :: i == j)
      && (forall k, e | 0 <= k < |pages| && e in pages[k].rows ::
            KeyFor(regions, e.id) in states[k].db.table && states[k].db.table[KeyFor(regions, e.id)] == e.data)
      && (Ended(pages) ==>
            forall id | (forall k | 0 <= k < |pages| :: KeyFor(regions, id) in states[k].db.table) :: HasId(rows, id))
  {
    forall k | 0 <= k < |indexes| ensures Sorted(less, indexes[k]) && TokenSafe(indexes[k]) {
      IndexIsTokenSafe(less, regions, states[k], indexes[k]);
    }
    ScanUnderChange(less, indexes, sizes);
    var pages := Paging.Scan(less, indexes, sizes, []).value;
    forall id | Ended(pages) && (forall k | 0 <= k < |pages| :: KeyFor(regions, id) in states[k].db.table)
      ensures HasId(Rows(pages), id)
    {
      forall k | 0 <= k < |pages| ensures HasId(indexes[..|pages|][k], id) {
        assert KeyFor(regions, id) in states[k].db.table && indexes[..|pages|][k] == indexes[k];
      }
      assert AllHave(indexes[..|pages|], id);
    }
  }
}
