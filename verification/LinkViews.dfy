/** What a link keeps: its functions by object, by symbol and by template key, collected from linker maps. */
module LinkViews {
  import opened Outcomes
  import S = SiteRows
  import T = TemplateKey

  type Pair = (string, string)

  /** One linker map: the kept pairs of object and symbol, and the demangled names known for the symbols. */
  datatype Link = Link(kept: set<Pair>, demangled: map<string, string>)

  function KeyText(key: T.Key): (s: string) { key.name + "/" + S.Decimal(key.arity) }

  /** The template key of a symbol; a symbol without a demangled name has the key of the empty text. */
  function TemplateOf(link: Link, symbol: string): (r: Option<string>) {
    match T.KeyOf(if symbol in link.demangled then link.demangled[symbol] else "")
    case None => None
    case Some(key) => Some(KeyText(key))
  }

  function TemplatesOf(link: Link, pairs: set<Pair>): (r: set<string>) {
    set p | p in pairs && TemplateOf(link, p.1).Some? :: TemplateOf(link, p.1).value
  }

  function SymbolsOf(pairs: set<Pair>): (r: set<string>) { set p | p in pairs :: p.1 }

  /** A view with one more linker map. */
  function With(view: S.View, link: Link): (r: S.View) {
    S.View(view.pairs + link.kept, view.symbols + SymbolsOf(link.kept),
           view.templates + TemplatesOf(link, link.kept))
  }

  function ViewOf(links: seq<Link>): (r: S.View) {
    if links == [] then S.View({}, {}, {}) else With(ViewOf(links[..|links| - 1]), links[|links| - 1])
  }

  // ---- the view of the source, filled in place ----

  class LinkView {
    var pairs: set<Pair>
    var symbols: set<string>
    var templates: set<string>

    function Value(): (v: S.View)
      reads this
    {
      S.View(pairs, symbols, templates)
    }

    constructor ()
      ensures Value() == ViewOf([])
    {
      pairs, symbols, templates := {}, {}, {};
    }

    method Add(link: Link)
      modifies this
      ensures Value() == With(old(Value()), link)
    {
      hide T.KeyOf, KeyText, SymbolsOf, TemplatesOf;
      pairs := pairs + link.kept;
      var left := link.kept;
      NothingYet(link, link.kept - left);
      while left != {}
        invariant left <= link.kept && pairs == old(pairs) + link.kept
        invariant symbols == old(symbols) + SymbolsOf(link.kept - left)
        invariant templates == old(templates) + TemplatesOf(link, link.kept - left)
        decreases left
      {
        var pair :| pair in left;
        symbols := symbols + {pair.1};
        var key := T.Compute(if pair.1 in link.demangled then link.demangled[pair.1] else "");
        if key.Some? { templates := templates + {KeyText(key.value)}; }
        OneMoreTemplate(link, link.kept - left, pair);
        assert link.kept - (left - {pair}) == link.kept - left + {pair};
        left := left - {pair};
      }
      assert link.kept - left == link.kept;
    }
  }

  lemma NothingYet(link: Link, none: set<Pair>)
    requires none == {}
    ensures SymbolsOf(none) == {} && TemplatesOf(link, none) == {}
  {
  }

  lemma OneMoreTemplate(link: Link, done: set<Pair>, pair: Pair)
    ensures TemplatesOf(link, done + {pair}) ==
      TemplatesOf(link, done) + if TemplateOf(link, pair.1).Some? then {TemplateOf(link, pair.1).value} else {}
    ensures SymbolsOf(done + {pair}) == SymbolsOf(done) + {pair.1}
  {
    hide TemplateOf;
    assert forall p :: p in done + {pair} ==> p in done || p == pair;
    assert forall p :: p in done || p == pair ==> p in done + {pair};
  }

  // ---- what is found in a view ----

  /** The map keeps the function with this pair: a template by its name and number of parameters, a function of one
      object by that object and one of its symbols, and any other function by one of its symbols in any object. */
  ghost predicate Keeps(link: Link, f: S.FunctionRef, pair: Pair) {
    && pair in link.kept
    && if f.template != "" then
         exists key :: T.KeyOf(if pair.1 in link.demangled then link.demangled[pair.1] else "") == Some(key)
           && f.template == key.name + "/" + S.Decimal(key.arity)
       else pair.1 in f.symbols && (f.internalTo != "" ==> pair.0 == f.internalTo)
  }

  ghost predicate KeptBy(link: Link, f: S.FunctionRef) {
    exists pair :: Keeps(link, f, pair)
  }

  /** A function is found in a view exactly when one of the collected maps keeps it. */
  lemma {:induction false} FoundIff(links: seq<Link>, f: S.FunctionRef)
    ensures f.FoundIn(ViewOf(links)) <==> exists i :: 0 <= i < |links| && KeptBy(links[i], f)
    decreases |links|
  {
    hide KeptBy, With;
    if links != [] {
      var init, last := links[..|links| - 1], |links| - 1;
      FoundIff(init, f);
      FoundWith(ViewOf(init), links[last], f);
      assert forall i :: 0 <= i < last ==> init[i] == links[i];
    }
  }

  lemma FoundWith(view: S.View, link: Link, f: S.FunctionRef)
    ensures f.FoundIn(With(view, link)) <==> f.FoundIn(view) || KeptBy(link, f)
  {
    hide KeptBy;
    if f.template != "" {
      TemplateKept(link, f);
    } else {
      SymbolsKept(link, f);
      hide *;
      FoundWithout(view, link, f);
    }
  }

  /** A function without a template key. */
  lemma FoundWithout(view: S.View, link: Link, f: S.FunctionRef)
    requires f.template == "" && (KeptBy(link, f) <==> SymbolIn(f, link.kept))
    ensures f.FoundIn(With(view, link)) <==> f.FoundIn(view) || KeptBy(link, f)
  {
    hide KeptBy;
    var more := With(view, link);
    if f.internalTo == "" {
      assert forall i :: 0 <= i < |f.symbols| ==>
        (f.symbols[i] in more.symbols <==> f.symbols[i] in view.symbols || f.symbols[i] in SymbolsOf(link.kept));
    } else {
      assert forall i :: 0 <= i < |f.symbols| ==>
        var pair := (f.internalTo, f.symbols[i]);
        (pair in more.pairs <==> pair in view.pairs || pair in link.kept);
    }
  }

  ghost predicate SymbolIn(f: S.FunctionRef, pairs: set<Pair>) {
    if f.internalTo != "" then exists i :: 0 <= i < |f.symbols| && (f.internalTo, f.symbols[i]) in pairs
    else exists i :: 0 <= i < |f.symbols| && f.symbols[i] in SymbolsOf(pairs)
  }

  lemma SymbolsKept(link: Link, f: S.FunctionRef)
    requires f.template == ""
    ensures KeptBy(link, f) <==> SymbolIn(f, link.kept)
  {
    hide T.KeyOf;
    if KeptBy(link, f) {
      var pair :| Keeps(link, f, pair);
      var i :| 0 <= i < |f.symbols| && f.symbols[i] == pair.1;
      assert (pair.0, f.symbols[i]) == pair;
    }
    if SymbolIn(f, link.kept) {
      if f.internalTo != "" {
        var i :| 0 <= i < |f.symbols| && (f.internalTo, f.symbols[i]) in link.kept;
        assert Keeps(link, f, (f.internalTo, f.symbols[i]));
      } else {
        var i :| 0 <= i < |f.symbols| && f.symbols[i] in SymbolsOf(link.kept);
        var pair :| pair in link.kept && pair.1 == f.symbols[i];
        assert Keeps(link, f, pair);
      }
    }
  }

  lemma TemplateKept(link: Link, f: S.FunctionRef)
    requires f.template != ""
    ensures f.template in TemplatesOf(link, link.kept) <==> KeptBy(link, f)
  {
    hide T.KeyOf;
    if f.template in TemplatesOf(link, link.kept) {
      var pair :| pair in link.kept && TemplateOf(link, pair.1) == Some(f.template);
      assert Keeps(link, f, pair);
    }
    if KeptBy(link, f) {
      var pair :| Keeps(link, f, pair);
      assert TemplateOf(link, pair.1) == Some(f.template);
    }
  }

  // ---- keys and their texts ----

  lemma DecimalIsInjective(m: nat, n: nat)
    requires S.Decimal(m) == S.Decimal(n)
    ensures m == n
  {
    S.DecimalRoundTrip(m);
    S.DecimalRoundTrip(n);
  }

  /** The text of a key determines it, whatever slashes its name holds. */
  lemma KeyTextIsInjective(a: T.Key, b: T.Key)
    ensures KeyText(a) == KeyText(b) <==> a == b
  {
    if KeyText(a) == KeyText(b) {
      var m, n := S.Decimal(a.arity), S.Decimal(b.arity);
      SameTail(a.name, m, b.name, n);
      DecimalIsInjective(a.arity, b.arity);
    }
  }

  lemma SameTail(a: string, m: string, b: string, n: string)
    requires a + "/" + m == b + "/" + n && '/' !in m && '/' !in n
    ensures a == b && m == n
  {
    var s := a + "/" + m;
    assert s[|a|] == '/' && s[|b|] == '/';
    assert forall i :: |a| < i < |s| ==> s[i] in m;
    assert forall i :: |b| < i < |s| ==> s[i] in n;
    assert a == s[..|a|] && b == s[..|b|] && m == s[|a| + 1..] && n == s[|b| + 1..];
  }
}
