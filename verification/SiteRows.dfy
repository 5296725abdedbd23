/** Call sites merged into rows, and the rows sorted into a table. */
module SiteRows {
  import opened Outcomes
  import opened Sorting
  import opened Lexicographic

  datatype View = View(pairs: set<(string, string)>, symbols: set<string>, templates: set<string>)

  /** A function as its mangled symbols, or as the key of a template pattern. */
  datatype FunctionRef = FunctionRef(symbols: seq<string>, template: string, internalTo: string) {
    predicate FoundIn(view: View) {
      if template != "" then template in view.templates
      else if internalTo != "" then exists i :: 0 <= i < |symbols| && (internalTo, symbols[i]) in view.pairs
      else exists i :: 0 <= i < |symbols| && symbols[i] in view.symbols
    }
  }

  datatype Key = Key(file: string, line: nat, name: string)

  datatype Site = Site(key: Key, library: string, text: string, owner: Option<FunctionRef>, ownerName: string)

  datatype Row = Row(library: string, texts: set<string>, buckets: set<string>, placed: bool, functions: set<string>)

  /** One backend's sites, and what its links kept and saw. */
  datatype Cell = Cell(sites: seq<Site>, views: map<string, View>, seen: View)

  type Rows = map<Key, Row>

  // ---- merging ----

  function Placed(site: Site, seen: View): (b: bool) {
    site.owner.Some? && site.owner.value.FoundIn(seen)
  }

  function Buckets(site: Site, views: map<string, View>): (s: set<string>) {
    if site.owner.None? then {} else set b | b in views && site.owner.value.FoundIn(views[b])
  }

  function Named(name: string): (s: set<string>) { if name == "" then {} else {name} }

  /** One site's addition to the rows. */
  function Add(rows: Rows, site: Site, views: map<string, View>, seen: View): (r: Rows) {
    var row := if site.key in rows then rows[site.key] else Row(site.library, {}, {}, false, {});
    rows[site.key := row.(texts := row.texts + {site.text}, buckets := row.buckets + Buckets(site, views),
                          placed := row.placed || Placed(site, seen),
                          functions := row.functions + Named(site.ownerName))]
  }

  function AddAll(rows: Rows, cell: Cell, n: nat): (r: Rows)
    requires n <= |cell.sites|
  {
    if n == 0 then rows else Add(AddAll(rows, cell, n - 1), cell.sites[n - 1], cell.views, cell.seen)
  }

  /** Folds one backend's sites into the rows. */
  method MergeSites(rows: Rows, cell: Cell) returns (r: Rows)
    ensures r == AddAll(rows, cell, |cell.sites|)
  {
    hide Add;
    r := rows;
    for i := 0 to |cell.sites|
      invariant r == AddAll(rows, cell, i)
    {
      var site := cell.sites[i];
      var row := if site.key in r then r[site.key] else Row(site.library, {}, {}, false, {});
      ghost var found := row;
      row := row.(texts := row.texts + {site.text});
      if site.ownerName != "" {
        row := row.(functions := row.functions + {site.ownerName});
      }
      if site.owner.Some? {
        row := row.(placed := row.placed || site.owner.value.FoundIn(cell.seen));
        row := row.(buckets := row.buckets + set b | b in cell.views && site.owner.value.FoundIn(cell.views[b]));
      }
      assert row.functions == found.functions + Named(site.ownerName);
      assert row.buckets == found.buckets + Buckets(site, cell.views);
      Added(r, site, cell, found, row);
      r := r[site.key := row];
    }
  }

  lemma Added(rows: Rows, site: Site, cell: Cell, found: Row, row: Row)
    requires found == if site.key in rows then rows[site.key] else Row(site.library, {}, {}, false, {})
    requires row == found.(texts := found.texts + {site.text}, buckets := found.buckets + Buckets(site, cell.views),
                           placed := found.placed || Placed(site, cell.seen),
                          functions := found.functions + Named(site.ownerName))
    ensures Add(rows, site, cell.views, cell.seen) == rows[site.key := row]
  {
    hide Buckets, Placed, Named;
  }

  function MergeCells(cells: seq<Cell>): (r: Rows) {
    if cells == [] then map[]
    else
      var last := cells[|cells| - 1];
      AddAll(MergeCells(cells[..|cells| - 1]), last, |last.sites|)
  }

  // ---- what the rows mean, with no order in sight ----

  /** A site, with what the links of its backend kept and saw. */
  datatype Event = Event(site: Site, views: map<string, View>, seen: View)

  ghost predicate HasSite(events: set<Event>, key: Key) {
    exists e :: e in events && e.site.key == key
  }

  ghost predicate HasText(events: set<Event>, key: Key, text: string) {
    exists e :: e in events && e.site.key == key && e.site.text == text
  }

  ghost predicate HasBucket(events: set<Event>, key: Key, bucket: string) {
    exists e :: e in events && e.site.key == key && e.site.owner.Some?
      && bucket in e.views && e.site.owner.value.FoundIn(e.views[bucket])
  }

  ghost predicate HasFunction(events: set<Event>, key: Key, name: string) {
    name != "" && exists e :: e in events && e.site.key == key && e.site.ownerName == name
  }

  ghost predicate HasPlace(events: set<Event>, key: Key) {
    exists e :: e in events && e.site.key == key && e.site.owner.Some? && e.site.owner.value.FoundIn(e.seen)
  }

  /** One row, all but its first-wins library field. */
  ghost predicate RowMeans(row: Row, events: set<Event>, key: Key) {
    && (forall t :: t in row.texts <==> HasText(events, key, t))
    && (forall b :: b in row.buckets <==> HasBucket(events, key, b))
    && (forall f :: f in row.functions <==> HasFunction(events, key, f))
    && (row.placed <==> HasPlace(events, key))
  }

  ghost predicate Means(rows: Rows, events: set<Event>) {
    && (forall key :: key in rows <==> HasSite(events, key))
    && (forall key :: key in rows ==> RowMeans(rows[key], events, key))
  }

  lemma OtherRows(row: Row, events: set<Event>, e: Event, key: Key)
    requires e.site.key != key
    ensures RowMeans(row, events + {e}, key) <==> RowMeans(row, events, key)
    ensures HasSite(events + {e}, key) <==> HasSite(events, key)
  {
    var more := events + {e};
    forall t ensures HasText(more, key, t) <==> HasText(events, key, t) { }
    forall b ensures HasBucket(more, key, b) <==> HasBucket(events, key, b) { }
    forall f ensures HasFunction(more, key, f) <==> HasFunction(events, key, f) { }
    assert HasPlace(more, key) <==> HasPlace(events, key);
  }

  lemma OwnRow(row: Row, events: set<Event>, e: Event)
    requires RowMeans(row, events, e.site.key)
    ensures RowMeans(row.(texts := row.texts + {e.site.text}, buckets := row.buckets + Buckets(e.site, e.views),
                          placed := row.placed || Placed(e.site, e.seen),
                          functions := row.functions + Named(e.site.ownerName)),
                     events + {e}, e.site.key)
  {
    var more, key := events + {e}, e.site.key;
    assert e in more;
    forall t ensures HasText(more, key, t) <==> HasText(events, key, t) || t == e.site.text { }
    forall b ensures HasBucket(more, key, b) <==> HasBucket(events, key, b) || b in Buckets(e.site, e.views) { }
    forall f ensures HasFunction(more, key, f) <==> HasFunction(events, key, f) || f in Named(e.site.ownerName) { }
    assert HasPlace(more, key) <==> HasPlace(events, key) || Placed(e.site, e.seen);
  }

  lemma NewRow(library: string, events: set<Event>, key: Key)
    requires !HasSite(events, key)
    ensures RowMeans(Row(library, {}, {}, false, {}), events, key)
  {
  }

  lemma AddMeans(rows: Rows, events: set<Event>, e: Event)
    requires Means(rows, events)
    ensures Means(Add(rows, e.site, e.views, e.seen), events + {e})
  {
    var after := Add(rows, e.site, e.views, e.seen);
    var row := if e.site.key in rows then rows[e.site.key] else Row(e.site.library, {}, {}, false, {});
    if e.site.key !in rows { NewRow(e.site.library, events, e.site.key); }
    OwnRow(row, events, e);
    assert e in events + {e};
    hide RowMeans;
    hide HasSite;
    forall key
      ensures key in after <==> HasSite(events + {e}, key)
      ensures key in after ==> RowMeans(after[key], events + {e}, key)
    {
      if key != e.site.key {
        OtherRows(if key in rows then rows[key] else row, events, e, key);
      } else {
        SeenNow(events, e);
      }
    }
  }

  lemma SeenNow(events: set<Event>, e: Event)
    ensures HasSite(events + {e}, e.site.key)
  {
    assert e in events + {e};
  }

  function EventsOf(cell: Cell, n: nat): (s: set<Event>)
    requires n <= |cell.sites|
  {
    set i | 0 <= i < n :: Event(cell.sites[i], cell.views, cell.seen)
  }

  function AllEvents(cells: seq<Cell>): (s: set<Event>) {
    if cells == [] then {}
    else AllEvents(cells[..|cells| - 1]) + EventsOf(cells[|cells| - 1], |cells[|cells| - 1].sites|)
  }

  lemma EventsStep(events: set<Event>, cell: Cell, n: nat)
    requires 0 < n <= |cell.sites|
    ensures events + EventsOf(cell, n) ==
      events + EventsOf(cell, n - 1) + {Event(cell.sites[n - 1], cell.views, cell.seen)}
  {
    var e := Event(cell.sites[n - 1], cell.views, cell.seen);
    forall x
      ensures x in EventsOf(cell, n) <==> x in EventsOf(cell, n - 1) || x == e
    {
      if x in EventsOf(cell, n) {
        var i :| 0 <= i < n && x == Event(cell.sites[i], cell.views, cell.seen);
        assert i < n - 1 ==> x in EventsOf(cell, n - 1);
      }
    }
  }

  lemma {:induction false} AddAllMeans(rows: Rows, events: set<Event>, cell: Cell, n: nat)
    requires Means(rows, events) && n <= |cell.sites|
    ensures Means(AddAll(rows, cell, n), events + EventsOf(cell, n))
  {
    hide Means, Add;
    if n == 0 {
      assert events + EventsOf(cell, 0) == events;
    } else {
      hide EventsOf;
      AddAllMeans(rows, events, cell, n - 1);
      EventsStep(events, cell, n);
      AddMeans(AddAll(rows, cell, n - 1), events + EventsOf(cell, n - 1),
          Event(cell.sites[n - 1], cell.views, cell.seen));
    }
  }

  /** After all backends each row holds exactly what the sites with its key contribute. */
  lemma {:induction false} MergeMeans(cells: seq<Cell>)
    ensures Means(MergeCells(cells), AllEvents(cells))
    decreases |cells|
  {
    if cells != [] {
      var init, last := cells[..|cells| - 1], cells[|cells| - 1];
      MergeMeans(init);
      AddAllMeans(MergeCells(init), AllEvents(init), last, |last.sites|);
    } else {
      forall key ensures !HasSite({}, key) { }
    }
  }

  /** Rows that agree in everything but the library. */
  ghost predicate SameButLibrary(rows: Rows, rows': Rows) {
    && rows.Keys == rows'.Keys
    && forall key :: key in rows ==> rows[key].(library := "") == rows'[key].(library := "")
  }

  /** The order of the backends, and of the sites in each of them, does not matter. */
  lemma OrderOfSitesIrrelevant(cells: seq<Cell>, cells': seq<Cell>)
    requires AllEvents(cells) == AllEvents(cells')
    ensures SameButLibrary(MergeCells(cells), MergeCells(cells'))
  {
    MergeMeans(cells);
    MergeMeans(cells');
    var events, rows, rows' := AllEvents(cells), MergeCells(cells), MergeCells(cells');
    forall key
      ensures key in rows <==> key in rows'
      ensures key in rows ==> rows[key].(library := "") == rows'[key].(library := "")
    {
      if key in rows {
        assert key in rows';
        SameMeaning(rows[key], rows'[key], events, key);
      }
    }
  }

  lemma SameMeaning(row: Row, row': Row, events: set<Event>, key: Key)
    requires RowMeans(row, events, key) && RowMeans(row', events, key)
    ensures row.(library := "") == row'.(library := "")
  {
    assert row.texts == row'.texts && row.buckets == row'.buckets && row.functions == row'.functions;
  }

  // ---- the table ----

  function FacadeOf(buckets: set<string>): (f: string) {
    if {"pinyin", "zhuyin"} <= buckets then "both"
    else if "pinyin" in buckets then "pinyin"
    else if "zhuyin" in buckets then "zhuyin"
    else if "tools" in buckets then "tools"
    else "none"
  }

  function Digit(d: nat): (c: char)
    requires d < 10
  {
    "0123456789"[d]
  }

  function Decimal(n: nat): (s: string)
    ensures s != "" && forall i :: 0 <= i < |s| ==> '0' <= s[i] <= '9'
  {
    if n < 10 then [Digit(n)] else Decimal(n / 10) + [Digit(n % 10)]
  }

  function ParseDecimal(s: string): (n: nat)
    requires forall i :: 0 <= i < |s| ==> '0' <= s[i] <= '9'
  {
    if s == "" then 0 else 10 * ParseDecimal(s[..|s| - 1]) + (s[|s| - 1] as int - '0' as int)
  }

  lemma {:induction false} DecimalRoundTrip(n: nat)
    ensures ParseDecimal(Decimal(n)) == n
  {
    var s := Decimal(n);
    if n < 10 {
      assert s[..0] == "";
    } else {
      assert s[..|s| - 1] == Decimal(n / 10);
      DecimalRoundTrip(n / 10);
    }
  }

  /** The text before and after the last colon. */
  function SplitLast(s: string): (r: Option<(string, string)>)
    ensures r.Some? ==> |r.value.0| < |s|
  {
    if s == "" then None
    else if s[|s| - 1] == ':' then Some((s[..|s| - 1], ""))
    else match SplitLast(s[..|s| - 1])
      case None => None
      case Some(p) => Some((p.0, p.1 + [s[|s| - 1]]))
  }

  lemma {:induction false} SplitLastFinds(file: string, rest: string)
    requires forall i :: 0 <= i < |rest| ==> rest[i] != ':'
    ensures SplitLast(file + ":" + rest) == Some((file, rest))
  {
    var s := file + ":" + rest;
    if rest == "" {
      assert s[..|s| - 1] == file;
    } else {
      var init := rest[..|rest| - 1];
      assert s[..|s| - 1] == file + ":" + init && s[|s| - 1] == rest[|rest| - 1];
      SplitLastFinds(file, init);
      assert rest == init + [rest[|rest| - 1]];
    }
  }

  /** One line of the table; `site` is the file and line joined by a colon. */
  datatype Item = Item(family: string, library: string, facade: string, backend: string, site: string, name: string,
      call: string)

  ghost function ItemOf(key: Key, row: Row, families: map<string, string>, backendOf: string -> string): (r: Item) {
    Item(if key.name in families then families[key.name] else "", row.library, FacadeOf(row.buckets),
         backendOf(key.file), key.file + ":" + Decimal(key.line), key.name, First(row.texts))
  }

  /** The file and line read back from the joined text, as the sort key does. */
  function FileOf(item: Item): (s: string) {
    match SplitLast(item.site) case None => item.site case Some(p) => p.0
  }

  function LineOf(item: Item): (n: nat) {
    match SplitLast(item.site)
    case None => 0
    case Some(p) => if forall i :: 0 <= i < |p.1| ==> '0' <= p.1[i] <= '9' then ParseDecimal(p.1) else 0
  }

  /** The sort order: family, file, line as a number, name, call text. */
  predicate Before(x: Item, y: Item) {
    if x.family != y.family then TextAtMost(x.family, y.family)
    else if FileOf(x) != FileOf(y) then TextAtMost(FileOf(x), FileOf(y))
    else if LineOf(x) != LineOf(y) then LineOf(x) < LineOf(y)
    else if x.name != y.name then TextAtMost(x.name, y.name)
    else TextAtMost(x.call, y.call)
  }

  lemma SiteReadBack(key: Key, row: Row, families: map<string, string>, backendOf: string -> string)
    ensures FileOf(ItemOf(key, row, families, backendOf)) == key.file
    ensures LineOf(ItemOf(key, row, families, backendOf)) == key.line
  {
    hide First;
    hide FacadeOf;
    hide Decimal;
    hide ParseDecimal;
    SplitLastFinds(key.file, Decimal(key.line));
    DecimalRoundTrip(key.line);
  }

  lemma BeforeTransitive(x: Item, y: Item, z: Item)
    requires Before(x, y) && Before(y, z)
    ensures Before(x, z)
  {
    hide TextAtMost;
    hide FileOf;
    hide LineOf;
    TextOrder(x.family, y.family, z.family);
    TextOrder(y.family, z.family, x.family);
    TextOrder(FileOf(x), FileOf(y), FileOf(z));
    TextOrder(FileOf(y), FileOf(z), FileOf(x));
    TextOrder(x.name, y.name, z.name);
    TextOrder(y.name, z.name, x.name);
    TextOrder(x.call, y.call, z.call);
  }

  lemma BeforeIsAnOrder()
    ensures TotalPreorder(Before)
  {
    forall x, y
      ensures Before(x, y) || Before(y, x)
    {
      TextOrder(x.family, y.family, "");
      TextOrder(FileOf(x), FileOf(y), "");
      TextOrder(x.name, y.name, "");
      TextOrder(x.call, y.call, "");
    }
    forall x, y, z | Before(x, y) && Before(y, z)
      ensures Before(x, z)
    {
      BeforeTransitive(x, y, z);
    }
  }

  lemma BeforeTies(x: Item, y: Item)
    requires Before(x, y) && Before(y, x)
    ensures FileOf(x) == FileOf(y) && LineOf(x) == LineOf(y) && x.name == y.name
  {
    hide TextAtMost;
    TextOrder(x.family, y.family, "");
    TextOrder(FileOf(x), FileOf(y), "");
    TextOrder(x.name, y.name, "");
  }

  function Erase(item: Item): (r: Item) { item.(library := "") }

  /** Each key of the rows once, in some order. */
  ghost predicate Enumerates(order: seq<Key>, rows: Rows) {
    multiset(order) == multiset(rows.Keys)
  }

  ghost function ItemAt(rows: Rows, families: map<string, string>, backendOf: string -> string): (f: Key -> Item) {
    key => if key in rows then ItemOf(key, rows[key], families, backendOf) else Item("", "", "", "", "", "", "")
  }

  ghost function Items(rows: Rows, order: seq<Key>, families: map<string, string>,
                       backendOf: string -> string): (r: seq<Item>) {
    Map(ItemAt(rows, families, backendOf), order)
  }

  /** The sorted table. */
  ghost function Table(rows: Rows, order: seq<Key>, families: map<string, string>,
                       backendOf: string -> string): (r: seq<Item>) {
    Sort(Before, Items(rows, order, families, backendOf))
  }

  lemma RemoveOne<T>(xs: seq<T>, i: nat)
    requires i < |xs|
    ensures multiset(xs) == multiset(xs[..i] + xs[i + 1..]) + multiset{xs[i]}
  {
    assert xs == xs[..i] + ([xs[i]] + xs[i + 1..]);
  }

  lemma SameLess<T>(more: multiset<T>, a: multiset<T>, b: multiset<T>, x: T)
    requires more == a + multiset{x} && more == b + multiset{x}
    ensures a == b
  {
    assert a == more - multiset{x} == b;
  }

  lemma FindFirst<S>(a: seq<S>, b: seq<S>) returns (i: nat)
    requires multiset(a) == multiset(b) && a != []
    ensures i < |b| && b[i] == a[0] && multiset(a[1..]) == multiset(b[..i] + b[i + 1..])
  {
    i := IndexIn(a, b);
    RemoveOne(a, 0);
    RemoveOne(b, i);
    assert a[..0] + a[1..] == a[1..];
    SameLess(multiset(a), multiset(a[1..]), multiset(b[..i] + b[i + 1..]), a[0]);
  }

  lemma IndexIn<S>(a: seq<S>, b: seq<S>) returns (i: nat)
    requires multiset(a) == multiset(b) && a != []
    ensures i < |b| && b[i] == a[0]
  {
    MultisetMembers(a, b);
    assert a[0] in b;
    i :| 0 <= i < |b| && b[i] == a[0];
  }

  lemma MapRemoves<S, T>(f: S -> T, xs: seq<S>, i: nat)
    requires i < |xs|
    ensures multiset(Map(f, xs)) == multiset(Map(f, xs[..i] + xs[i + 1..])) + multiset{f(xs[i])}
  {
    hide Map;
    var ys := Map(f, xs);
    RemoveOne(ys, i);
    assert ys[..i] + ys[i + 1..] == Map(f, xs[..i] + xs[i + 1..]);
  }

  lemma {:induction false} MapPermutes<S, T>(f: S -> T, a: seq<S>, b: seq<S>)
    requires multiset(a) == multiset(b)
    ensures multiset(Map(f, a)) == multiset(Map(f, b))
    decreases |a|
  {
    hide Map;
    if a == [] {
      assert |b| == |multiset(b)| == 0;
    } else {
      var i := FindFirst(a, b);
      var rest := b[..i] + b[i + 1..];
      MapPermutes(f, a[1..], rest);
      MapHead(f, a);
      MapRemoves(f, b, i);
      SameMore(multiset(Map(f, a[1..])), multiset(Map(f, rest)), f(a[0]));
    }
  }

  lemma MapHead<S, T>(f: S -> T, a: seq<S>)
    requires a != []
    ensures multiset(Map(f, a)) == multiset(Map(f, a[1..])) + multiset{f(a[0])}
  {
    assert Map(f, a) == [f(a[0])] + Map(f, a[1..]);
  }

  lemma SameMore<T>(a: multiset<T>, b: multiset<T>, x: T)
    requires a == b
    ensures a + multiset{x} == b + multiset{x}
  {
  }

  ghost function ErasedItem(rows: Rows, families: map<string, string>, backendOf: string -> string): (f: Key -> Item) {
    key => Erase(ItemAt(rows, families, backendOf)(key))
  }

  lemma ErasedItemIs(rows: Rows, families: map<string, string>, backendOf: string -> string, k: Key)
    ensures ErasedItem(rows, families, backendOf)(k)
         == Erase(if k in rows then ItemOf(k, rows[k], families, backendOf) else Item("", "", "", "", "", "", ""))
  {
    hide ItemOf;
    var at := ItemAt(rows, families, backendOf);
    assert at(k) == if k in rows then ItemOf(k, rows[k], families, backendOf) else Item("", "", "", "", "", "", "");
    assert ErasedItem(rows, families, backendOf)(k) == Erase(at(k));
  }

  lemma EraseKeepsOrder()
    ensures forall x, y :: Before(x, y) == Before(Erase(x), Erase(y))
  {
  }

  lemma ErasedItems(rows: Rows, order: seq<Key>, families: map<string, string>, backendOf: string -> string)
    ensures Map(Erase, Items(rows, order, families, backendOf)) == Map(ErasedItem(rows, families, backendOf), order)
  {
    hide ItemOf;
    var items := Items(rows, order, families, backendOf);
    forall i | 0 <= i < |order|
      ensures Map(Erase, items)[i] == Map(ErasedItem(rows, families, backendOf), order)[i]
    {
    }
  }

  lemma ErasedTable(rows: Rows, order: seq<Key>, families: map<string, string>, backendOf: string -> string)
    ensures Map(Erase, Table(rows, order, families, backendOf))
         == Sort(Before, Map(ErasedItem(rows, families, backendOf), order))
  {
    hide Items;
    hide Sort;
    hide ErasedItem;
    ErasedItems(rows, order, families, backendOf);
    var items := Items(rows, order, families, backendOf);
    EraseKeepsOrder();
    hide Before;
    SortOfMap(Erase, Before, Before, items);
  }

  /** Two lines that tie are the same line: the sort key determines file, line and name. */
  lemma KeysAreInjective(rows: Rows, families: map<string, string>, backendOf: string -> string, k: Key, k': Key,
                         x: Item, y: Item)
    requires k in rows && k' in rows
    requires x == Erase(ItemOf(k, rows[k], families, backendOf))
      && y == Erase(ItemOf(k', rows[k'], families, backendOf))
    requires Before(x, y) && Before(y, x)
    ensures k == k'
  {
    hide First;
    hide FacadeOf;
    hide Decimal;
    BeforeTies(x, y);
    hide Before;
    SiteReadBack(k, rows[k], families, backendOf);
    SiteReadBack(k', rows[k'], families, backendOf);
  }

  lemma SameErasedItems(rows: Rows, rows': Rows, order: seq<Key>, families: map<string, string>,
                        backendOf: string -> string)
    requires SameButLibrary(rows, rows')
    ensures Map(ErasedItem(rows, families, backendOf), order) == Map(ErasedItem(rows', families, backendOf), order)
  {
    hide First;
    forall i | 0 <= i < |order|
      ensures ErasedItem(rows, families, backendOf)(order[i]) == ErasedItem(rows', families, backendOf)(order[i])
    {
      var k := order[i];
      ErasedItemIs(rows, families, backendOf, k);
      ErasedItemIs(rows', families, backendOf, k);
      if k in rows {
        assert rows[k].(library := "") == rows'[k].(library := "");
        assert rows[k].texts == rows[k].(library := "").texts && rows[k].buckets == rows[k].(library := "").buckets;
      }
    }
  }

  lemma SameListing(rows: Rows, order: seq<Key>, order': seq<Key>)
    requires Enumerates(order, rows) && Enumerates(order', rows)
    ensures multiset(order) == multiset(order')
    ensures forall i :: 0 <= i < |order| ==> order[i] in rows
  {
    forall i | 0 <= i < |order|
      ensures order[i] in rows
    {
      assert order[i] in multiset(order);
    }
  }

  lemma NoTies(rows: Rows, families: map<string, string>, backendOf: string -> string, order: seq<Key>, x: Item,
               y: Item)
    requires Enumerates(order, rows)
    requires x in Map(ErasedItem(rows, families, backendOf), order)
      && y in Map(ErasedItem(rows, families, backendOf), order)
    requires Before(x, y) && Before(y, x)
    ensures x == y
  {
    hide Before;
    hide ItemOf;
    SameListing(rows, order, order);
    var a := Map(ErasedItem(rows, families, backendOf), order);
    var i :| 0 <= i < |a| && a[i] == x;
    var j :| 0 <= j < |a| && a[j] == y;
    ErasedItemIs(rows, families, backendOf, order[i]);
    ErasedItemIs(rows, families, backendOf, order[j]);
    KeysAreInjective(rows, families, backendOf, order[i], order[j], x, y);
  }

  lemma SortedTablesAgree(rows: Rows, families: map<string, string>, backendOf: string -> string, order: seq<Key>,
                          order': seq<Key>)
    requires Enumerates(order, rows) && Enumerates(order', rows)
    ensures Sort(Before, Map(ErasedItem(rows, families, backendOf), order))
         == Sort(Before, Map(ErasedItem(rows, families, backendOf), order'))
  {
    hide *;
    SameListing(rows, order, order');
    var f := ErasedItem(rows, families, backendOf);
    var a, b := Map(f, order), Map(f, order');
    MapPermutes(f, order, order');
    SortKeepsElements(Before, a);
    SortKeepsElements(Before, b);
    BeforeIsAnOrder();
    SortSorts(Before, a);
    SortSorts(Before, b);
    forall x, y | x in Sort(Before, a) && y in Sort(Before, a) && Before(x, y) && Before(y, x)
      ensures x == y
    {
      SortMembers(Before, a);
      NoTies(rows, families, backendOf, order, x, y);
    }
    SortedIsCanonical(Before, Sort(Before, a), Sort(Before, b));
  }

  /** The table depends only on which sites exist: any order of backends and sites, and any order in which the rows
      are listed, gives the same lines up to the library column. */
  lemma TableIsCanonical(cells: seq<Cell>, cells': seq<Cell>, order: seq<Key>, order': seq<Key>,
                         families: map<string, string>, backendOf: string -> string)
    requires AllEvents(cells) == AllEvents(cells')
    requires Enumerates(order, MergeCells(cells)) && Enumerates(order', MergeCells(cells'))
    ensures Map(Erase, Table(MergeCells(cells), order, families, backendOf))
         == Map(Erase, Table(MergeCells(cells'), order', families, backendOf))
  {
    OrderOfSitesIrrelevant(cells, cells');
    hide *;
    var rows, rows' := MergeCells(cells), MergeCells(cells');
    SameKeys(rows, rows', order');
    ErasedTable(rows, order, families, backendOf);
    ErasedTable(rows', order', families, backendOf);
    SameErasedItems(rows, rows', order', families, backendOf);
    SortedTablesAgree(rows, families, backendOf, order, order');
  }

  lemma SameKeys(rows: Rows, rows': Rows, order: seq<Key>)
    requires SameButLibrary(rows, rows') && Enumerates(order, rows')
    ensures Enumerates(order, rows)
  {
  }

  // ---- the table is closed in both directions ----

  /** Table functions without a site, or a site whose name the table does not know. */
  datatype BuildError = Siteless(names: set<string>) | UnknownName(name: string)

  function NamesOf(rows: Rows): (s: set<string>) { set key | key in rows :: key.name }

  /** The first name, in the order the rows are listed, that has no family. */
  function FirstUnknown(order: seq<Key>, families: map<string, string>): (r: Option<string>) {
    if order == [] then None
    else if order[0].name !in families then Some(order[0].name)
    else FirstUnknown(order[1..], families)
  }

  ghost function BuildRows(rows: Rows, order: seq<Key>, families: map<string, string>,
                           backendOf: string -> string): (r: Result<seq<Item>, BuildError>) {
    if families.Keys - NamesOf(rows) != {} then Err(Siteless(families.Keys - NamesOf(rows)))
    else match FirstUnknown(order, families)
      case Some(name) => Err(UnknownName(name))
      case None => Ok(Table(rows, order, families, backendOf))
  }

  lemma {:induction false} UnknownIsFound(order: seq<Key>, families: map<string, string>)
    ensures match FirstUnknown(order, families)
      case Some(name) => name !in families && exists i :: 0 <= i < |order| && order[i].name == name
      case None => forall i :: 0 <= i < |order| ==> order[i].name in families
  {
    if order != [] && order[0].name in families {
      UnknownIsFound(order[1..], families);
      if FirstUnknown(order[1..], families).Some? {
        var i :| 0 <= i < |order[1..]| && order[1..][i].name == FirstUnknown(order[1..], families).value;
        assert order[i + 1] == order[1..][i];
      }
    }
  }

  /** A table is built exactly when the names of the sites and the names of the family table are the same; a table
      function without a site is reported first, and an unknown name is one that some site has. */
  lemma BuiltIff(rows: Rows, order: seq<Key>, families: map<string, string>, backendOf: string -> string)
    requires Enumerates(order, rows)
    ensures var r := BuildRows(rows, order, families, backendOf);
      && (r.Ok? <==> NamesOf(rows) == families.Keys)
      && (r.Ok? ==> r.value == Table(rows, order, families, backendOf))
      && (r.Err? && r.error.Siteless? <==> !(families.Keys <= NamesOf(rows)))
      && (r.Err? && r.error.Siteless? ==> r.error.names == families.Keys - NamesOf(rows))
      && (r.Err? && r.error.UnknownName? ==> r.error.name in NamesOf(rows) - families.Keys)
  {
    hide Table;
    UnknownIsFound(order, families);
    SameListing(rows, order, order);
    NamesListed(rows, order);
    var names := NamesOf(rows);
    if families.Keys - names == {} {
      assert families.Keys <= names by {
        forall n | n in families.Keys ensures n in names { assert n in names || n in families.Keys - names; }
      }
    }
  }

  lemma NamesListed(rows: Rows, order: seq<Key>)
    requires Enumerates(order, rows)
    ensures forall n :: n in NamesOf(rows) <==> exists i :: 0 <= i < |order| && order[i].name == n
  {
    forall key
      ensures key in rows <==> key in order
    {
      assert key in order <==> key in multiset(order);
      assert key in rows.Keys <==> key in multiset(rows.Keys);
    }
    forall n
      ensures n in NamesOf(rows) <==> exists i :: 0 <= i < |order| && order[i].name == n
    {
      if n in NamesOf(rows) {
        var key :| key in rows && key.name == n;
        assert key in order;
      }
      if i :| 0 <= i < |order| && order[i].name == n {
        assert order[i] in order;
      }
    }
  }

  /** The whole of `build_rows` depends only on which sites exist: it fails in the same way, up to which unknown name
      it meets first, or builds the same lines up to the library column. */
  lemma BuildIsCanonical(cells: seq<Cell>, cells': seq<Cell>, order: seq<Key>, order': seq<Key>,
                         families: map<string, string>, backendOf: string -> string)
    requires AllEvents(cells) == AllEvents(cells')
    requires Enumerates(order, MergeCells(cells)) && Enumerates(order', MergeCells(cells'))
    ensures var r, r' := BuildRows(MergeCells(cells), order, families, backendOf),
      BuildRows(MergeCells(cells'), order', families, backendOf);
      && (r.Ok? <==> r'.Ok?)
      && (r.Ok? ==> Map(Erase, r.value) == Map(Erase, r'.value))
      && (r.Err? ==> (r.error.Siteless? <==> r'.error.Siteless?) && (r.error.Siteless? ==> r == r'))
  {
    OrderOfSitesIrrelevant(cells, cells');
    SameNames(MergeCells(cells), MergeCells(cells'));
    hide *;
    BuiltIff(MergeCells(cells), order, families, backendOf);
    BuiltIff(MergeCells(cells'), order', families, backendOf);
    TableIsCanonical(cells, cells', order, order', families, backendOf);
  }

  lemma SameNames(rows: Rows, rows': Rows)
    requires SameButLibrary(rows, rows')
    ensures NamesOf(rows) == NamesOf(rows')
  {
    assert forall key :: key in rows <==> key in rows.Keys;
    assert forall key :: key in rows' <==> key in rows'.Keys;
  }

  // ---- which order, and which columns ----

  /** Row `k` is listed before row `l`: by family, then file, then line as a number, then name. */
  ghost predicate ListedBefore(families: map<string, string>, k: Key, l: Key)
    requires k.name in families && l.name in families
  {
    if families[k.name] != families[l.name] then TextLess(families[k.name], families[l.name])
    else if k.file != l.file then TextLess(k.file, l.file)
    else if k.line != l.line then k.line < l.line
    else TextLess(k.name, l.name)
  }

  /** One line of the table shows its row: the facade of the links that keep it, and the first of its texts. */
  ghost predicate Shows(item: Item, key: Key, row: Row, families: map<string, string>, backendOf: string -> string)
    requires key.name in families
  {
    && item.family == families[key.name] && item.library == row.library && item.backend == backendOf(key.file)
    && item.site == key.file + ":" + Decimal(key.line) && item.name == key.name
    && (row.texts != {} ==> item.call in row.texts && forall u :: u in row.texts && u != item.call ==>
        TextLess(item.call, u))
    && (item.facade == "both" <==> "pinyin" in row.buckets && "zhuyin" in row.buckets)
    && (item.facade == "pinyin" <==> "pinyin" in row.buckets && "zhuyin" !in row.buckets)
    && (item.facade == "zhuyin" <==> "zhuyin" in row.buckets && "pinyin" !in row.buckets)
    && (item.facade == "tools" <==> "tools" in row.buckets && "pinyin" !in row.buckets && "zhuyin" !in row.buckets)
    && (item.facade == "none" <==> row.buckets !! {"pinyin", "zhuyin", "tools"})
  }

  lemma ItemShows(key: Key, row: Row, families: map<string, string>, backendOf: string -> string)
    requires key.name in families
    ensures Shows(ItemOf(key, row, families, backendOf), key, row, families, backendOf)
  {
    hide TextLess, Decimal;
    var item := ItemOf(key, row, families, backendOf);
    forall u | u in row.texts && u != item.call
      ensures TextLess(item.call, u)
    {
      TextAtMostMeans(item.call, u);
    }
    FacadeMeans(row.buckets);
  }

  lemma FacadeMeans(b: set<string>)
    ensures FacadeOf(b) == "both" <==> "pinyin" in b && "zhuyin" in b
    ensures FacadeOf(b) == "pinyin" <==> "pinyin" in b && "zhuyin" !in b
    ensures FacadeOf(b) == "zhuyin" <==> "zhuyin" in b && "pinyin" !in b
    ensures FacadeOf(b) == "tools" <==> "tools" in b && "pinyin" !in b && "zhuyin" !in b
    ensures FacadeOf(b) == "none" <==> b !! {"pinyin", "zhuyin", "tools"}
  {
  }

  /** The row a line stands for. */
  ghost function KeyOf(item: Item): (key: Key) { Key(FileOf(item), LineOf(item), item.name) }

  lemma ItemsKey(key: Key, row: Row, families: map<string, string>, backendOf: string -> string)
    ensures KeyOf(ItemOf(key, row, families, backendOf)) == key
  {
    hide First, FacadeOf, FileOf, LineOf;
    SiteReadBack(key, row, families, backendOf);
  }

  lemma BeforeIsListed(rows: Rows, families: map<string, string>, backendOf: string -> string, k: Key, l: Key)
    requires k in rows && l in rows && k != l && k.name in families && l.name in families
    requires Before(ItemOf(k, rows[k], families, backendOf), ItemOf(l, rows[l], families, backendOf))
    ensures ListedBefore(families, k, l)
  {
    hide First, FacadeOf, FileOf, LineOf, TextAtMost, TextLess, Decimal;
    SiteReadBack(k, rows[k], families, backendOf);
    SiteReadBack(l, rows[l], families, backendOf);
    TextAtMostMeans(families[k.name], families[l.name]);
    TextAtMostMeans(k.file, l.file);
    TextAtMostMeans(k.name, l.name);
  }

  /** A line of the table is the item of the row it stands for. */
  lemma LineIsItem(rows: Rows, order: seq<Key>, families: map<string, string>, backendOf: string -> string, item: Item)
    requires Enumerates(order, rows) && item in Table(rows, order, families, backendOf)
    ensures KeyOf(item) in rows && item == ItemOf(KeyOf(item), rows[KeyOf(item)], families, backendOf)
  {
    hide Before, ItemOf, KeyOf;
    SameListing(rows, order, order);
    var items := Items(rows, order, families, backendOf);
    SortMembers(Before, items);
    assert item in items;
    var i :| 0 <= i < |items| && items[i] == item;
    ItemsKey(order[i], rows[order[i]], families, backendOf);
  }

  lemma RowHasLine(rows: Rows, order: seq<Key>, families: map<string, string>, backendOf: string -> string, key: Key)
    requires Enumerates(order, rows) && key in rows
    ensures ItemOf(key, rows[key], families, backendOf) in Table(rows, order, families, backendOf)
  {
    hide Before, ItemOf;
    assert key in multiset(rows.Keys);
    assert key in order;
    var items := Items(rows, order, families, backendOf);
    var i :| 0 <= i < |order| && order[i] == key;
    assert items[i] in items;
    SortMembers(Before, items);
  }

  /** As many places as different elements: each element stands in one place. */
  lemma {:induction false} NoneTwice<T>(xs: seq<T>, s: set<T>)
    requires |xs| == |s| && forall x :: x in s ==> x in xs
    ensures forall i, j :: 0 <= i < j < |xs| ==> xs[i] != xs[j]
  {
    if xs != [] {
      var x := xs[0];
      if x in s && x !in xs[1..] {
        forall y | y in s - {x} ensures y in xs[1..] { assert y in xs; }
        NoneTwice(xs[1..], s - {x});
      } else {
        forall y | y in s ensures y in xs[1..] { assert y in xs; }
        FewerPlaces(xs[1..], s);
        assert false;
      }
    }
  }

  lemma {:induction false} FewerPlaces<T>(xs: seq<T>, s: set<T>)
    requires forall x :: x in s ==> x in xs
    ensures |s| <= |xs|
    decreases |xs|
  {
    if xs == [] {
      assert s == {};
    } else {
      var x := xs[0];
      forall y | y in s - {x} ensures y in xs[1..] { assert y in xs; }
      FewerPlaces(xs[1..], s - {x});
    }
  }

  /** The table lists each row once, in the order of family, file, line and name, and every line shows its row. */
  lemma TableIsListed(rows: Rows, order: seq<Key>, families: map<string, string>, backendOf: string -> string)
    returns (listed: seq<Key>)
    requires Enumerates(order, rows) && forall key :: key in rows ==> key.name in families
    ensures var table := Table(rows, order, families, backendOf);
      && |listed| == |table| == |rows|
      && (forall key :: key in rows <==> key in listed)
      && (forall i :: 0 <= i < |listed| ==>
            listed[i] in rows && Shows(table[i], listed[i], rows[listed[i]], families, backendOf))
    ensures forall i, j :: 0 <= i < j < |listed| ==>
      listed[i] in rows && listed[j] in rows && ListedBefore(families, listed[i], listed[j])
  {
    hide Before, ItemOf, KeyOf, ListedBefore, Shows, Table;
    var table := Table(rows, order, families, backendOf);
    TableSize(rows, order, families, backendOf);
    listed := seq(|table|, i requires 0 <= i < |table| => KeyOf(table[i]));
    forall i | 0 <= i < |table|
      ensures listed[i] in rows && table[i] == ItemOf(listed[i], rows[listed[i]], families, backendOf)
      ensures listed[i] in rows && Shows(table[i], listed[i], rows[listed[i]], families, backendOf)
    {
      assert table[i] in table;
      LineIsItem(rows, order, families, backendOf, table[i]);
      ItemShows(listed[i], rows[listed[i]], families, backendOf);
    }
    forall key | key in rows
      ensures key in listed
    {
      RowHasLine(rows, order, families, backendOf, key);
      ItemsKey(key, rows[key], families, backendOf);
      var i :| 0 <= i < |table| && table[i] == ItemOf(key, rows[key], families, backendOf);
      assert listed[i] == key;
    }
    NoneTwice(listed, rows.Keys);
    TableIsSorted(rows, order, families, backendOf);
    forall i, j | 0 <= i < j < |listed|
      ensures listed[i] in rows && listed[j] in rows && ListedBefore(families, listed[i], listed[j])
    {
      assert Before(table[i], table[j]);
      BeforeIsListed(rows, families, backendOf, listed[i], listed[j]);
    }
  }

  /** What was built lists each row once, in that order, whenever it is built. */
  lemma BuiltIsListed(rows: Rows, order: seq<Key>, families: map<string, string>, backendOf: string -> string)
    returns (listed: seq<Key>)
    requires Enumerates(order, rows) && BuildRows(rows, order, families, backendOf).Ok?
    ensures var table := BuildRows(rows, order, families, backendOf).value;
      && |listed| == |table| == |rows|
      && (forall key :: key in rows <==> key in listed)
      && (forall i :: 0 <= i < |listed| ==>
            && listed[i] in rows && listed[i].name in families
            && Shows(table[i], listed[i], rows[listed[i]], families, backendOf))
    ensures forall i, j :: 0 <= i < j < |listed| ==>
      && listed[i].name in families && listed[j].name in families
      && ListedBefore(families, listed[i], listed[j])
  {
    hide BuildRows, Table, Shows, ListedBefore, Enumerates;
    BuiltIff(rows, order, families, backendOf);
    AllNamed(rows, families);
    listed := TableIsListed(rows, order, families, backendOf);
  }

  lemma AllNamed(rows: Rows, families: map<string, string>)
    requires NamesOf(rows) == families.Keys
    ensures forall key :: key in rows ==> key.name in families
  {
    assert forall key :: key in rows ==> key.name in NamesOf(rows);
  }

  lemma TableIsSorted(rows: Rows, order: seq<Key>, families: map<string, string>, backendOf: string -> string)
    ensures Sorted(Before, Table(rows, order, families, backendOf))
  {
    hide Before, Items;
    BeforeIsAnOrder();
    SortSorts(Before, Items(rows, order, families, backendOf));
  }

  lemma TableSize(rows: Rows, order: seq<Key>, families: map<string, string>, backendOf: string -> string)
    requires Enumerates(order, rows)
    ensures |Table(rows, order, families, backendOf)| == |rows|
  {
    hide Before;
    assert |order| == |multiset(order)| == |multiset(rows.Keys)| == |rows.Keys|;
  }
}
