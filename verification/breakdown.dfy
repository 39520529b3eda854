/** The client/operation breakdown shared by the service-time and stay-time
    tabs (src/visualizacao/dashboards/operacoes_clientes/tempo_atend.py and
    permanencia.py): a period's tickets, narrowed to the selected clients when
    the breakdown is by operation, grouped by client or by operation.
 */
module Breakdown {
  import opened Orders
  import opened Seqs
  import opened Tickets
  import opened SidebarFilters

  /** The radio button "Analisar por": `CLIENTE` or `OPERAÇÃO`. */
  datatype Grouping = ByClient | ByOperation

  /** Which of the sidebar's two date ranges a computation reads. */
  datatype PeriodKey = Period1 | Period2

  function RangeOf(f: Filters, p: PeriodKey): Period {
    match p
    case Period1 => f.period1
    case Period2 => f.period2
  }

  /** The grouping column. */
  function KeyOf(g: Grouping): Ticket -> string {
    match g
    case ByClient => Client
    case ByOperation => Operation
  }

  /** `filtros['cliente'] != ['Todos'] and grupo == 'OPERAÇÃO'`: the client
      selection is ignored when grouping by client, and a selection that is
      exactly the single entry "Todos" keeps every client. */
  predicate ClientFilterApplies(f: Filters, g: Grouping) {
    f.clients != [AllClients] && g == ByOperation
  }

  /** The tickets a breakdown aggregates: the period's date mask, then the
      client mask when it applies. */
  function Selection(ts: seq<Ticket>, f: Filters, p: PeriodKey, g: Grouping): (r: seq<Ticket>)
    ensures forall t :: t in r <==>
              && t in ts
              && WithdrawnIn(RangeOf(f, p), t)
              && (ClientFilterApplies(f, g) ==> t.client in f.clients)
    ensures !ClientFilterApplies(f, g) ==> r == SelectPeriod(ts, RangeOf(f, p))
  {
    var sel := SelectPeriod(ts, RangeOf(f, p));
    if ClientFilterApplies(f, g) then Filter(sel, (t: Ticket) => t.client in f.clients) else sel
  }

  /** Grouping by client never narrows the clients, whatever the selection. */
  lemma ByClientIgnoresClientSelection(ts: seq<Ticket>, f: Filters, f': Filters, p: PeriodKey)
    requires RangeOf(f, p) == RangeOf(f', p)
    ensures Selection(ts, f, p, ByClient) == Selection(ts, f', p, ByClient)
  {
  }

  /** "Todos" keeps every client only as the sole entry: listed next to other
      clients it is a name like any other, and unlisted clients are dropped. */
  lemma AllClientsOnlyAsSoleEntry(ts: seq<Ticket>, f: Filters, p: PeriodKey, t: Ticket)
    requires AllClients in f.clients && |f.clients| > 1
    requires t in SelectPeriod(ts, RangeOf(f, p)) && t.client !in f.clients
    ensures t !in Selection(ts, f, p, ByOperation)
  {
  }

  ghost predicate HasKey(sel: seq<Ticket>, g: Grouping, k: string) {
    exists t :: t in sel && KeyOf(g)(t) == k
  }

  /** The groupby keys, in ascending order. */
  function Keys(sel: seq<Ticket>, g: Grouping): (keys: seq<string>)
    ensures StrictlySorted(keys, StrLt) && Distinct(keys)
    ensures forall k :: k in keys <==> HasKey(sel, g, k)
  {
    StrLtIsStrictTotalOrder();
    var keys := SortedKeys(Map(sel, KeyOf(g)), StrLt);
    forall k ensures k in keys <==> HasKey(sel, g, k) {
      if k in keys {
        var i :| 0 <= i < |Map(sel, KeyOf(g))| && Map(sel, KeyOf(g))[i] == k;
        assert sel[i] in sel;
      }
      if HasKey(sel, g, k) {
        var t :| t in sel && KeyOf(g)(t) == k;
        var i :| 0 <= i < |sel| && sel[i] == t;
        assert Map(sel, KeyOf(g))[i] == k;
      }
    }
    keys
  }

  /** The rows of one group; a listed key has at least one. */
  function KeyGroup(sel: seq<Ticket>, g: Grouping, k: string): (r: seq<Ticket>)
    requires HasKey(sel, g, k)
    ensures |r| > 0
    ensures r == Group(sel, KeyOf(g), k)
  {
    KeyedRowInGroup(sel, g, k);
    Group(sel, KeyOf(g), k)
  }

  lemma KeyedRowInGroup(sel: seq<Ticket>, g: Grouping, k: string)
    requires HasKey(sel, g, k)
    ensures |Group(sel, KeyOf(g), k)| > 0
  {
    var t :| t in sel && KeyOf(g)(t) == k;
    assert t in Group(sel, KeyOf(g), k);
  }

  /** Every row's key is listed once, so the groups' sizes add up to the rows. */
  lemma KeysPartition(sel: seq<Ticket>, g: Grouping)
    ensures GroupSizes(sel, KeyOf(g), Keys(sel, g)) == |sel|
  {
    var keys := Keys(sel, g);
    forall t | t in sel ensures KeyOf(g)(t) in keys {
      assert HasKey(sel, g, KeyOf(g)(t));
    }
    GroupSizesPartition(sel, KeyOf(g), keys);
  }
}
