/**
 * The per-client order matcher of the restaurant program.
 *
 * One client's ordered dish names are walked in order; each name is looked up
 * in the menu (exact, case-sensitive equality, first entry wins); a found dish
 * adds its price to the client's total and appends a "cook is preparing"
 * record to the shared agents list, a missing one appends a "cook reports the
 * dish unavailable" record.
 */
module Restaurant {

  datatype Option<T> = None | Some(value: T)

  /** A menu entry. Prices are exact decimal amounts (roubles). */
  datatype Menu = Menu(name: string, price: real)

  /** A client and the dish names they ordered, in order. */
  datatype Client = Client(name: string, order: seq<string>)

  /** An action record; `CookAgent` is an `Agent` with the same three fields. */
  datatype Agent = Agent(actorRole: string, verb: string, detail: string)

  const Cook: string := "Повар"
  const Prepares: string := "Готовит"
  const Reports: string := "Сообщает"
  const DishPrefix: string := "Блюдо "
  const MissingSuffix: string := " отсутствует"

  // ---------------------------------------------------------------------------
  // Menu lookup: the stream `filter(name equals).findFirst()`

  /** True when some menu entry carries exactly this name. */
  ghost predicate OnMenu(menu: seq<Menu>, itemName: string) {
    exists i :: 0 <= i < |menu| && menu[i].name == itemName
  }

  /** The first menu entry, by index, whose name equals `itemName`. */
  function FindDish(menu: seq<Menu>, itemName: string): (r: Option<Menu>)
    ensures r.None? <==> forall i :: 0 <= i < |menu| ==> menu[i].name != itemName
    ensures r.Some? ==> exists k :: 0 <= k < |menu| && menu[k] == r.value && r.value.name == itemName &&
                                   forall j :: 0 <= j < k ==> menu[j].name != itemName
  {
    if menu == [] then None
    else if menu[0].name == itemName then Some(menu[0])
    else
      var r := FindDish(menu[1..], itemName);
      assert forall i :: 1 <= i < |menu| ==> menu[i] == menu[1..][i - 1];
      r
  }

  /** First match wins: the entry at the first index carrying the name is the one found. */
  lemma {:induction false} FindDishFirstMatch(menu: seq<Menu>, itemName: string, k: nat)
    requires k < |menu| && menu[k].name == itemName
    requires forall j :: 0 <= j < k ==> menu[j].name != itemName
    ensures FindDish(menu, itemName) == Some(menu[k])
  {
    if k > 0 {
      assert menu[1..][k - 1] == menu[k];
      FindDishFirstMatch(menu[1..], itemName, k - 1);
    }
  }

  /** Entries appended after a match, duplicates included, never change what is found. */
  lemma {:induction false} FindDishIgnoresLaterEntries(menu: seq<Menu>, later: seq<Menu>, itemName: string)
    requires FindDish(menu, itemName).Some?
    ensures FindDish(menu + later, itemName) == FindDish(menu, itemName)
  {
    if menu[0].name != itemName {
      assert (menu + later)[1..] == menu[1..] + later;
      FindDishIgnoresLaterEntries(menu[1..], later, itemName);
    }
  }

  /** What a found item adds to the total: the first matching entry's price, or nothing. */
  function PriceOf(menu: seq<Menu>, itemName: string): (price: real) {
    match FindDish(menu, itemName)
    case Some(dish) => dish.price
    case None => 0.0
  }

  // ---------------------------------------------------------------------------
  // The records appended for one ordered item

  function Cooking(itemName: string): (a: Agent) {
    Agent(Cook, Prepares, DishPrefix + itemName)
  }

  function Unavailable(itemName: string): (a: Agent) {
    Agent(Cook, Reports, DishPrefix + itemName + MissingSuffix)
  }

  /** The record appended for one ordered item name. */
  function RecordFor(menu: seq<Menu>, itemName: string): (a: Agent)
    ensures a.actorRole == Cook
    ensures a.verb == Prepares <==> OnMenu(menu, itemName)
    ensures a.verb == Reports <==> !OnMenu(menu, itemName)
    ensures |a.detail| >= |DishPrefix| && a.detail[..|DishPrefix|] == DishPrefix
    ensures OnMenu(menu, itemName) ==> a == Agent(Cook, Prepares, DishPrefix + itemName)
    ensures !OnMenu(menu, itemName) ==> a == Agent(Cook, Reports, DishPrefix + itemName + MissingSuffix)
  {
    if FindDish(menu, itemName).Some? then Cooking(itemName) else Unavailable(itemName)
  }

  /** Recovers the ordered item name from a record's detail. */
  function DishName(a: Agent): (itemName: string) {
    if |a.detail| < |DishPrefix| then ""
    else if a.verb == Reports && |a.detail| >= |DishPrefix| + |MissingSuffix| then
      a.detail[|DishPrefix|..|a.detail| - |MissingSuffix|]
    else a.detail[|DishPrefix|..]
  }

  /** Each record names the item it was made for: `DishName` inverts `RecordFor`. */
  lemma DishNameOfRecord(menu: seq<Menu>, itemName: string)
    ensures DishName(RecordFor(menu, itemName)) == itemName
  {
    var a := RecordFor(menu, itemName);
    if a.verb == Reports {
      assert a.detail == DishPrefix + itemName + MissingSuffix;
      assert a.detail[|DishPrefix|..|a.detail| - |MissingSuffix|] == itemName;
    } else {
      assert a.detail == DishPrefix + itemName;
      assert a.detail[|DishPrefix|..] == itemName;
    }
  }

  // ---------------------------------------------------------------------------
  // Specification of one client's processing

  /** All records appended for an order, in append order (defined from the last item back). */
  function Records(menu: seq<Menu>, order: seq<string>): (records: seq<Agent>) {
    if order == [] then []
    else Records(menu, order[..|order| - 1]) + [RecordFor(menu, order[|order| - 1])]
  }

  /** The client's total: the sum of the prices of the ordered items that were found. */
  function Total(menu: seq<Menu>, order: seq<string>): (total: real) {
    if order == [] then 0.0
    else Total(menu, order[..|order| - 1]) + PriceOf(menu, order[|order| - 1])
  }

  /** One record per ordered item, the i-th record made for the i-th item. */
  lemma {:induction false} RecordsAt(menu: seq<Menu>, order: seq<string>)
    ensures |Records(menu, order)| == |order|
    ensures forall i :: 0 <= i < |order| ==> Records(menu, order)[i] == RecordFor(menu, order[i])
  {
    if order != [] {
      var init := order[..|order| - 1];
      RecordsAt(menu, init);
      var last := RecordFor(menu, order[|order| - 1]);
      assert Records(menu, order) == Records(menu, init) + [last];
      forall i | 0 <= i < |order|
        ensures Records(menu, order)[i] == RecordFor(menu, order[i])
      {
        if i < |init| {
          assert init[i] == order[i];
        }
      }
    }
  }

  /** The records of an order list its items: `DishName` reads the order back from them. */
  lemma RecordsNameTheOrder(menu: seq<Menu>, order: seq<string>)
    ensures |Records(menu, order)| == |order|
    ensures forall i :: 0 <= i < |order| ==> DishName(Records(menu, order)[i]) == order[i]
  {
    RecordsAt(menu, order);
    forall i | 0 <= i < |order|
      ensures DishName(Records(menu, order)[i]) == order[i]
    {
      DishNameOfRecord(menu, order[i]);
    }
  }

  /** Processing an order split in two appends the first part's records, then the second's. */
  lemma {:induction false} RecordsAppend(menu: seq<Menu>, a: seq<string>, b: seq<string>)
    ensures Records(menu, a + b) == Records(menu, a) + Records(menu, b)
  {
    if b != [] {
      var b' := b[..|b| - 1];
      assert (a + b)[..|a + b| - 1] == a + b';
      assert (a + b)[|a + b| - 1] == b[|b| - 1];
      RecordsAppend(menu, a, b');
    } else {
      assert a + b == a;
    }
  }

  /** The total of an order split in two is the sum of the parts' totals. */
  lemma {:induction false} TotalAppend(menu: seq<Menu>, a: seq<string>, b: seq<string>)
    ensures Total(menu, a + b) == Total(menu, a) + Total(menu, b)
  {
    if b != [] {
      var b' := b[..|b| - 1];
      assert (a + b)[..|a + b| - 1] == a + b';
      assert (a + b)[|a + b| - 1] == b[|b| - 1];
      TotalAppend(menu, a, b');
    } else {
      assert a + b == a;
    }
  }

  /** The total does not depend on the order in which the items are processed. */
  lemma {:induction false} TotalPermutation(menu: seq<Menu>, a: seq<string>, b: seq<string>)
    requires multiset(a) == multiset(b)
    ensures Total(menu, a) == Total(menu, b)
  {
    if a != [] {
      var last := a[|a| - 1];
      var init := a[..|a| - 1];
      assert a == init + [last];
      assert last in multiset(b);
      var k :| 0 <= k < |b| && b[k] == last;
      var rest := b[..k] + b[k + 1..];
      assert b == b[..k] + [last] + b[k + 1..];
      assert multiset(b) == multiset(b[..k]) + multiset{last} + multiset(b[k + 1..]);
      assert multiset(rest) == multiset(b[..k]) + multiset(b[k + 1..]);
      assert multiset(a) == multiset(init) + multiset{last};
      assert multiset(init) == multiset(a) - multiset{last};
      assert multiset(rest) == multiset(b) - multiset{last};
      TotalPermutation(menu, init, rest);
      TotalAppend(menu, b[..k] + [last], b[k + 1..]);
      TotalAppend(menu, b[..k], [last]);
      TotalAppend(menu, b[..k], b[k + 1..]);
      assert Total(menu, [last]) == PriceOf(menu, last) by {
        assert [last][..0] == [];
      }
    } else {
      assert b == [];
    }
  }

  /** Items that are not on the menu add nothing to the total. */
  lemma {:induction false} TotalOfUnavailable(menu: seq<Menu>, order: seq<string>)
    requires forall i :: 0 <= i < |order| ==> !OnMenu(menu, order[i])
    ensures Total(menu, order) == 0.0
  {
    if order != [] {
      var init := order[..|order| - 1];
      assert forall i :: 0 <= i < |init| ==> init[i] == order[i];
      TotalOfUnavailable(menu, init);
      assert FindDish(menu, order[|order| - 1]).None?;
    }
  }

  /** A one-dish menu and an order of one dish on it and one dish not on it. */
  lemma SoupAndBread()
    ensures Records([Menu("Soup", 150.0)], ["Soup", "Bread"])
         == [Cooking("Soup"), Unavailable("Bread")]
    ensures Total([Menu("Soup", 150.0)], ["Soup", "Bread"]) == 150.0
  {
    var menu, order := [Menu("Soup", 150.0)], ["Soup", "Bread"];
    assert order[..1] == ["Soup"] && order[..1][..0] == [];
    assert FindDish(menu, "Bread") == None by {
      assert menu[0].name != "Bread";
    }
  }

  // ---------------------------------------------------------------------------
  // The shared agents list and the processing of one client

  /** The caller's `List<Agent>`; `Add` appends one record at the end. */
  class AgentList {
    var items: seq<Agent>

    constructor ()
      ensures items == []
    {
      items := [];
    }

    method Add(a: Agent)
      modifies this
      ensures items == old(items) + [a]
    {
      items := items + [a];
    }
  }

  /**
   * Processes one client's order against the menu, appending one record per
   * ordered item to `agents` and returning the client's total (which the
   * program itself only reports on the console).
   */
  method ProcessClient(client: Client, menu: seq<Menu>, agents: AgentList) returns (total: real)
    modifies agents
    ensures agents.items == old(agents.items) + Records(menu, client.order)
    ensures total == Total(menu, client.order)
    ensures client.order == [] ==> agents.items == old(agents.items) && total == 0.0
  {
    if client.order == [] {
      return 0.0;
    }
    total := 0.0;
    var i := 0;
    while i < |client.order|
      invariant 0 <= i <= |client.order|
      invariant agents.items == old(agents.items) + Records(menu, client.order[..i])
      invariant total == Total(menu, client.order[..i])
    {
      var itemName := client.order[i];
      assert client.order[..i + 1][..i] == client.order[..i];
      var dish := FindDish(menu, itemName);
      if dish.Some? {
        total := total + dish.value.price;
        agents.Add(Cooking(itemName));
      } else {
        agents.Add(Unavailable(itemName));
      }
      i := i + 1;
    }
    assert client.order[..i] == client.order;
  }
}
