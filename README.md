# Restaurant order matcher

A Dafny model of the per-client order processing of a small restaurant program
(`Restaurant.processClient`). For one client, the program walks the client's
ordered dish names in order. It looks each name up in the menu by exact,
case-sensitive equality, and the first matching entry wins. A found dish adds
its price to the client's running total and appends a "cook is preparing the
dish" record (`Повар` / `Готовит` / `Блюдо <name>`) to the shared agents list.
A missing dish appends a "cook reports the dish unavailable" record (`Повар` /
`Сообщает` / `Блюдо <name> отсутствует`) and leaves the total alone. A client
with an empty order gets nothing appended.

Everything is in `restaurant.dfy`, module `Restaurant`:

- `Menu`, `Client`, `Agent` are plain records. `CookAgent` is an `Agent` with
  the same three fields. The field names of `Agent` (`actorRole`, `verb`,
  `detail`) are descriptive; the Java classes are not part of this model.
- `FindDish` is the stream `filter(...).findFirst()` lookup, a pure function.
- `Records`, `Total` and `PriceOf` are the reference definitions that
  `ProcessClient` is proved against: the records one client appends (one
  `RecordFor` per ordered item, in order), the client's total, and what one
  item adds to it (the first matching entry's price, or nothing). Their
  properties are stated by the lemmas in the table below.
- `AgentList` is the caller's mutable `List<Agent>`; `ProcessClient` is the
  loop, proved to append exactly `Records(menu, order)` and to return
  `Total(menu, order)`. The Java method only prints the total; the model
  returns it so that it can be specified.
- The menu and the client are immutable Dafny values, and `ProcessClient`
  modifies only the agents list, so they are only read.

The record strings follow the Java code (Russian literals), not an English
rendering of them.

## Model

| member | source | states |
|---|---|---|
| Restaurant.FindDish | src/main/java/org/example/Restaurant.java:71 | the lookup finds nothing exactly when no entry's name equals the item; otherwise it returns an entry with that exact name that sits at an index before which no entry carries the name |
| Restaurant.FindDishFirstMatch | src/main/java/org/example/Restaurant.java:71 | the entry at the first index whose name equals the item is the one returned (first match wins) |
| Restaurant.FindDishIgnoresLaterEntries | src/main/java/org/example/Restaurant.java:71 | once a match exists, entries after it (later duplicates included) never change the result, so they never contribute a price |
| Restaurant.RecordFor | src/main/java/org/example/Restaurant.java:71-80 | the record's role is the cook; its verb is "Готовит" exactly when the name is on the menu and "Сообщает" exactly when it is not; its detail starts with "Блюдо "; a found item gives exactly ("Повар", "Готовит", "Блюдо " + name) and a missing one exactly ("Повар", "Сообщает", "Блюдо " + name + " отсутствует") |
| Restaurant.DishNameOfRecord | src/main/java/org/example/Restaurant.java:77-80 | the item name can be read back from the record made for it, for both the found and the missing case |
| Restaurant.RecordsAt | src/main/java/org/example/Restaurant.java:69-81 | one record per ordered item, and the i-th record is the one made for the i-th ordered name |
| Restaurant.RecordsNameTheOrder | src/main/java/org/example/Restaurant.java:69-81 | reading the item name back from every appended record gives the client's order, item for item |
| Restaurant.RecordsAppend | src/main/java/org/example/Restaurant.java:69-81 | processing an order split in two appends the first part's records followed by the second part's |
| Restaurant.TotalAppend | src/main/java/org/example/Restaurant.java:68-75 | the exact (real-valued) total of an order split in two is the sum of the two parts' totals |
| Restaurant.TotalPermutation | src/main/java/org/example/Restaurant.java:68-75 | two orders holding the same items in any order have the same exact (real-valued) total |
| Restaurant.TotalOfUnavailable | src/main/java/org/example/Restaurant.java:78-80 | items that are not on the menu add nothing: an order of only such items totals 0 |
| Restaurant.SoupAndBread | src/main/java/org/example/Restaurant.java:68-81 | a menu of Soup at 150 and an order of Soup then Bread yields a preparing record for Soup, then an unavailable record for Bread, and a total of 150 |
| Restaurant.AgentList.constructor | src/main/java/org/example/Restaurant.java:26 | a new agents list is empty |
| Restaurant.AgentList.Add | src/main/java/org/example/Restaurant.java:77-80 | `add` appends the record at the end and changes nothing else |
| Restaurant.ProcessClient | src/main/java/org/example/Restaurant.java:59-87 | the agents list afterwards is its old contents followed by `Records(menu, order)` (append-only, old contents an unchanged prefix); the returned total is `Total(menu, order)`; an empty order leaves the list unchanged with total 0; only the agents list is modified |

## Left out

- `main`, `loadData` and `writeAgents`: JSON file reading and writing through a library whose code is not part of this model, plus exception wrapping.
- `processClientsInParallel` and the fixed pool of four worker threads: the model covers one client processed sequentially; the interleaving of concurrent appends to the unsynchronised shared list is not modelled.
- Console narration and the `System.currentTimeMillis()` timing: side effects with no bearing on the records or the total.
- ProcessClient: prices and the total are exact reals; the IEEE double rounding of `total += price` is not modelled, so the total is an exact sum.
- TotalAppend: holds of the exact real-valued `Total`, not of the program's `double` total, which is accumulated one item at a time and rounds at each step, so the sum of two parts' totals can differ in the last place from the total of the whole order.
- TotalPermutation: holds of the exact real-valued `Total`, not of the program's `double` total; with rounding at each `+=`, the same items in another order can give a total that differs in the last place (0.1, 0.2, 0.3 and 0.3, 0.2, 0.1, for example).
- The internals of the `Menu`, `Client`, `Agent` and `CookAgent` classes: treated as plain records with the fields the matcher uses; Java `null` values are not modelled.
