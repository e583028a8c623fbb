/** The filter state the page holds, and the two handlers that replace it. */
module FilterState {
  import opened Seqs
  import opened Catalog
  import opened Matching

  class FilterController {
    /** The current `filters` state. */
    var filters: Filters

    /** `useState(initialFilters)`: the page starts with every filter empty. */
    constructor ()
      ensures filters == Initial
    {
      filters := Initial;
    }

    /** `handleFilterChange`: the input named `field` now holds `value`; the other
        five fields keep what they held. */
    method Change(field: Field, value: string)
      modifies this
      ensures Get(filters, field) == value
      ensures forall other :: other != field ==> Get(filters, other) == Get(old(filters), other)
    {
      filters := With(filters, field, value);
    }

    /** `clearFilters`: back to the initial state whatever was chosen, so the
        whole data set is shown again. */
    method Clear()
      modifies this
      ensures filters == Initial
      ensures forall data :: Visible(data) == data
    {
      filters := Initial;
      forall data
        ensures Visible(data) == data
      {
        FilterInitialIsIdentity(data);
      }
    }

    /** `filteredPokemons` for the current state: the matching records, in data-set
        order, each as often as the data set lists it. */
    function Visible(data: seq<Pokemon>): (r: seq<Pokemon>)
      reads this
      ensures IsSubseq(r, data)
      ensures forall p :: p in r <==> p in data && Matches(p, filters)
      ensures forall p :: multiset(r)[p] == if Matches(p, filters) then multiset(data)[p] else 0
    {
      FilterIsSubsequence(data, filters);
      FilterMembership(data, filters);
      forall p
        ensures multiset(Filter(data, filters))[p] == if Matches(p, filters) then multiset(data)[p] else 0
      {
        FilterCounts(data, filters, p);
      }
      Filter(data, filters)
    }
  }

  /** A session on the page: choosing a region narrows the list to that region, and a reset shows everything again. */
  method RegionThenReset(data: seq<Pokemon>, value: string) returns (narrowed: seq<Pokemon>, cleared: seq<Pokemon>)
    ensures IsSubseq(narrowed, data)
    ensures forall p :: p in narrowed ==> p.region == value || value == ""
    ensures cleared == data
  {
    var c := new FilterController();
    c.Change(Region, value);
    narrowed := c.Visible(data);
    c.Clear();
    cleared := c.Visible(data);
  }
}
