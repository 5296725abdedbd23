/** The key `name/arity` of a demangled symbol, with template arguments removed. */
module TemplateKey {
  // The text is taken after the rewriting of operator spellings, which leaves every other name unchanged.

  import opened Outcomes

  // ---- removing balanced angle groups ----

  /** What the bracket loop keeps of `text` when it starts at `depth`. */
  function Kept(text: string, depth: nat): (r: string) {
    if text == "" then ""
    else if text[0] == '<' then Kept(text[1..], depth + 1)
    else if text[0] == '>' && depth > 0 then Kept(text[1..], depth - 1)
    else if depth == 0 then [text[0]] + Kept(text[1..], depth)
    else Kept(text[1..], depth)
  }

  method StripTemplateArguments(text: string) returns (out: string)
    ensures out == Kept(text, 0)
  {
    out := "";
    var depth := 0;
    for i := 0 to |text|
      invariant depth >= 0
      invariant Kept(text, 0) == out + Kept(text[i..], depth)
    {
      assert text[i..][0] == text[i] && text[i..][1..] == text[i + 1..];
      if text[i] == '<' { depth := depth + 1; }
      else if text[i] == '>' && depth > 0 { depth := depth - 1; }
      else if depth == 0 { out := out + [text[i]]; }
    }
    assert text[|text|..] == "";
  }

  /** Text with balanced angle groups. */
  datatype Piece = Char(c: char) | Angle(inner: seq<Piece>)

  /** Outside every group a lone `>` is kept; inside one it would close the group. */
  ghost predicate PieceOk(p: Piece, outside: bool) {
    match p
    case Char(c) => c != '<' && (c == '>' ==> outside)
    case Angle(inner) => forall i :: 0 <= i < |inner| ==> PieceOk(inner[i], false)
  }

  ghost predicate PiecesOk(ps: seq<Piece>, outside: bool) {
    forall i :: 0 <= i < |ps| ==> PieceOk(ps[i], outside)
  }

  function Spell(p: Piece): (s: string)
    ensures s != "" && (p.Angle? ==> s[0] == '<') && (p.Char? ==> s == [p.c])
    decreases p, 0
  {
    match p
    case Char(c) => [c]
    case Angle(inner) => "<" + SpellAll(inner) + ">"
  }

  function SpellAll(ps: seq<Piece>): (s: string)
    decreases ps, 1
  {
    if ps == [] then "" else Spell(ps[0]) + SpellAll(ps[1..])
  }

  /** The characters outside every group. */
  function Visible(ps: seq<Piece>): (s: string) {
    if ps == [] then ""
    else if ps[0].Char? then [ps[0].c] + Visible(ps[1..])
    else Visible(ps[1..])
  }

  lemma {:induction false} PieceKept(p: Piece, depth: nat, rest: string)
    requires PieceOk(p, depth == 0)
    ensures Kept(Spell(p) + rest, depth) == (if p.Char? && depth == 0 then [p.c] else "") + Kept(rest, depth)
    decreases p, 0
  {
    match p
    case Char(c) =>
      assert ([c] + rest)[1..] == rest;
    case Angle(inner) =>
      var text := Spell(p) + rest;
      assert text[1..] == SpellAll(inner) + (">" + rest);
      PiecesKept(inner, depth + 1, ">" + rest);
      assert (">" + rest)[1..] == rest;
  }

  lemma {:induction false} PiecesKept(ps: seq<Piece>, depth: nat, rest: string)
    requires PiecesOk(ps, depth == 0)
    ensures Kept(SpellAll(ps) + rest, depth) == (if depth == 0 then Visible(ps) else "") + Kept(rest, depth)
    decreases ps, 1
  {
    if ps == [] {
      assert "" + rest == rest;
    } else {
      assert SpellAll(ps) + rest == Spell(ps[0]) + (SpellAll(ps[1..]) + rest);
      PieceKept(ps[0], depth, SpellAll(ps[1..]) + rest);
      PiecesKept(ps[1..], depth, rest);
    }
  }

  lemma KeepsVisible(ps: seq<Piece>)
    requires PiecesOk(ps, true)
    ensures Kept(SpellAll(ps), 0) == Visible(ps)
  {
    PiecesKept(ps, 0, "");
    assert SpellAll(ps) + "" == SpellAll(ps) && Visible(ps) + "" == Visible(ps);
  }

  // ---- the close parenthesis, backwards ----

  /** The last index below `n` that holds `c`, or -1. */
  function LastIndex(text: string, c: char, n: nat): (i: int)
    requires n <= |text|
    ensures -1 <= i < n
    ensures i >= 0 ==> text[i] == c
    ensures forall j :: i < j < n ==> text[j] != c
  {
    if n == 0 then -1 else if text[n - 1] == c then n - 1 else LastIndex(text, c, n - 1)
  }

  /** The open parenthesis that balances the text from `at` backwards, or -1. */
  function MatchBack(text: string, at: int, depth: int): (i: int)
    requires -1 <= at < |text|
    ensures -1 <= i <= at
    decreases at + 1
  {
    if at < 0 then -1
    else if text[at] == ')' then MatchBack(text, at - 1, depth + 1)
    else if text[at] == '(' then if depth == 1 then at else MatchBack(text, at - 1, depth - 1)
    else MatchBack(text, at - 1, depth)
  }

  method FindOpen(text: string, end: nat) returns (start: int)
    requires end < |text|
    ensures start == MatchBack(text, end, 0)
  {
    var depth := 0;
    start := end;
    while start >= 0
      invariant -1 <= start < |text|
      invariant MatchBack(text, end, 0) == MatchBack(text, start, depth)
      decreases start + 1
    {
      if text[start] == ')' {
        depth := depth + 1;
      } else if text[start] == '(' {
        depth := depth - 1;
        if depth == 0 { return; }
      }
      start := start - 1;
    }
  }

  // ---- the arity ----

  /** White space as `str.strip` knows it. */
  predicate IsSpace(c: char) {
    var n := c as int;
    9 <= n <= 13 || 28 <= n <= 32 || n == 0x85 || n == 0xA0 || n == 0x1680 || 0x2000 <= n <= 0x200A
        || n in {0x2028, 0x2029, 0x202F, 0x205F, 0x3000}
  }

  function TrimLeft(s: string): (r: string) {
    if s != "" && IsSpace(s[0]) then TrimLeft(s[1..]) else s
  }

  function TrimRight(s: string): (r: string) {
    if s != "" && IsSpace(s[|s| - 1]) then TrimRight(s[..|s| - 1]) else s
  }

  function Trim(s: string): (r: string) { TrimRight(TrimLeft(s)) }

  /** The code points of white space, one by one. */
  const WHITE := {9, 10, 11, 12, 13, 28, 29, 30, 31, 32, 133, 160, 5760, 8192, 8193, 8194, 8195, 8196, 8197, 8198, 8199,
                  8200, 8201, 8202, 8232, 8233, 8239, 8287, 12288}

  /** Trimming takes white space from both ends, and all of it. */
  lemma TrimIs(s: string) returns (before: string, after: string)
    ensures s == before + Trim(s) + after
    ensures forall c :: c in before || c in after ==> c as int in WHITE
    ensures Trim(s) != "" ==> Trim(s)[0] as int !in WHITE && Trim(s)[|Trim(s)| - 1] as int !in WHITE
  {
    hide IsSpace, WHITE;
    var left := TrimLeft(s);
    before := LeftIs(s);
    after := RightIs(left);
    assert Trim(s) != "" ==> Trim(s)[0] == left[0];
    assert s == before + (Trim(s) + after);
  }

  lemma SpaceIsWhite(c: char)
    ensures IsSpace(c) <==> c as int in WHITE
  {
  }

  lemma {:induction false} LeftIs(s: string) returns (before: string)
    ensures s == before + TrimLeft(s) && forall c :: c in before ==> c as int in WHITE
    ensures TrimLeft(s) != "" ==> TrimLeft(s)[0] as int !in WHITE
    decreases |s|
  {
    hide IsSpace, WHITE;
    before := "";
    if s != "" {
      SpaceIsWhite(s[0]);
      if IsSpace(s[0]) {
        var rest := LeftIs(s[1..]);
        before := [s[0]] + rest;
      }
    }
  }

  lemma {:induction false} RightIs(s: string) returns (after: string)
    ensures s == TrimRight(s) + after && forall c :: c in after ==> c as int in WHITE
    ensures TrimRight(s) != "" ==> TrimRight(s)[|TrimRight(s)| - 1] as int !in WHITE
    decreases |s|
  {
    hide IsSpace, WHITE;
    after := "";
    if s != "" {
      var n := |s| - 1;
      SpaceIsWhite(s[n]);
      if IsSpace(s[n]) {
        var rest := RightIs(s[..n]);
        after := rest + [s[n]];
        assert s == s[..n] + [s[n]];
      }
    }
  }

  /** The commas outside every parenthesis, scanning from `depth`. */
  function Commas(s: string, depth: int): (n: nat) {
    if s == "" then 0
    else if s[0] == '(' then Commas(s[1..], depth + 1)
    else if s[0] == ')' then Commas(s[1..], depth - 1)
    else (if s[0] == ',' && depth == 0 then 1 else 0) + Commas(s[1..], depth)
  }

  method Arity(inside: string) returns (arity: nat)
    ensures arity == ArityOf(inside)
  {
    var params := Trim(inside);
    arity := 0;
    if params != "" && params != "void" {
      arity := 1;
      var depth := 0;
      for i := 0 to |params|
        invariant arity + Commas(params[i..], depth) == 1 + Commas(params, 0)
      {
        assert params[i..][0] == params[i] && params[i..][1..] == params[i + 1..];
        if params[i] == '(' { depth := depth + 1; }
        else if params[i] == ')' { depth := depth - 1; }
        else if params[i] == ',' && depth == 0 { arity := arity + 1; }
      }
    }
  }

  lemma {:induction false} TrimLeftCommas(s: string, depth: int)
    ensures Commas(TrimLeft(s), depth) == Commas(s, depth)
  {
    if s != "" && IsSpace(s[0]) { TrimLeftCommas(s[1..], depth); }
  }

  lemma {:induction false} CommasOfSpace(s: string, c: char, depth: int)
    requires IsSpace(c)
    ensures Commas(s + [c], depth) == Commas(s, depth)
  {
    if s == "" {
      assert s + [c] == [c] && [c][1..] == "";
    } else {
      assert (s + [c])[1..] == s[1..] + [c];
      CommasOfSpace(s[1..], c, if s[0] == '(' then depth + 1 else if s[0] == ')' then depth - 1 else depth);
    }
  }

  lemma {:induction false} TrimRightCommas(s: string, depth: int)
    ensures Commas(TrimRight(s), depth) == Commas(s, depth)
  {
    if s != "" && IsSpace(s[|s| - 1]) {
      TrimRightCommas(s[..|s| - 1], depth);
      CommasOfSpace(s[..|s| - 1], s[|s| - 1], depth);
      assert s == s[..|s| - 1] + [s[|s| - 1]];
    }
  }

  // ---- parameter lists ----

  datatype Node = Sym(c: char) | Paren(inner: seq<Node>)

  ghost predicate NodeOk(x: Node) {
    match x
    case Sym(c) => c != '(' && c != ')'
    case Paren(inner) => forall i :: 0 <= i < |inner| ==> NodeOk(inner[i])
  }

  ghost predicate NodesOk(xs: seq<Node>) {
    forall i :: 0 <= i < |xs| ==> NodeOk(xs[i])
  }

  function SpellNode(x: Node): (s: string)
    decreases x, 0
  {
    match x
    case Sym(c) => [c]
    case Paren(inner) => "(" + SpellNodes(inner) + ")"
  }

  function SpellNodes(xs: seq<Node>): (s: string)
    decreases xs, 1
  {
    if xs == [] then "" else SpellNode(xs[0]) + SpellNodes(xs[1..])
  }

  lemma {:induction false} SpellNodesAppend(a: seq<Node>, b: seq<Node>)
    ensures SpellNodes(a + b) == SpellNodes(a) + SpellNodes(b)
  {
    if a == [] {
      assert a + b == b;
    } else {
      assert (a + b)[1..] == a[1..] + b;
      SpellNodesAppend(a[1..], b);
    }
  }

  function TopCommas(xs: seq<Node>): (n: nat) {
    if xs == [] then 0 else (if xs[0] == Sym(',') then 1 else 0) + TopCommas(xs[1..])
  }

  lemma {:induction false} NodeCommas(x: Node, depth: nat, rest: string)
    requires NodeOk(x)
    ensures Commas(SpellNode(x) + rest, depth) == (if x == Sym(',') && depth == 0 then 1 else 0) + Commas(rest, depth)
    decreases x, 0
  {
    match x
    case Sym(c) =>
      assert ([c] + rest)[1..] == rest;
    case Paren(inner) =>
      assert (SpellNode(x) + rest)[1..] == SpellNodes(inner) + (")" + rest);
      NodesCommas(inner, depth + 1, ")" + rest);
      assert (")" + rest)[1..] == rest;
  }

  lemma {:induction false} NodesCommas(xs: seq<Node>, depth: nat, rest: string)
    requires NodesOk(xs)
    ensures Commas(SpellNodes(xs) + rest, depth) == (if depth == 0 then TopCommas(xs) else 0) + Commas(rest, depth)
    decreases xs, 1
  {
    if xs == [] {
      assert "" + rest == rest;
    } else {
      assert SpellNodes(xs) + rest == SpellNode(xs[0]) + (SpellNodes(xs[1..]) + rest);
      NodeCommas(xs[0], depth, SpellNodes(xs[1..]) + rest);
      NodesCommas(xs[1..], depth, rest);
    }
  }

  /** Parameters joined by top-level commas. */
  function JoinParams(params: seq<seq<Node>>): (xs: seq<Node>) {
    if params == [] then []
    else if |params| == 1 then params[0]
    else params[0] + [Sym(',')] + JoinParams(params[1..])
  }

  lemma {:induction false} TopCommasAppend(a: seq<Node>, b: seq<Node>)
    ensures TopCommas(a + b) == TopCommas(a) + TopCommas(b)
  {
    if a == [] {
      assert a + b == b;
    } else {
      assert (a + b)[1..] == a[1..] + b;
      TopCommasAppend(a[1..], b);
    }
  }

  ghost predicate ParamsOk(params: seq<seq<Node>>) {
    forall i :: 0 <= i < |params| ==> NodesOk(params[i]) && TopCommas(params[i]) == 0
  }

  /** A list of `n > 0` parameters, however many commas their own parentheses hold, has `n - 1` separators. */
  lemma {:induction false} JoinCounts(params: seq<seq<Node>>)
    requires params != [] && ParamsOk(params)
    ensures NodesOk(JoinParams(params)) && TopCommas(JoinParams(params)) == |params| - 1
  {
    if |params| > 1 {
      JoinCounts(params[1..]);
      TopCommasAppend(params[0] + [Sym(',')], JoinParams(params[1..]));
      TopCommasAppend(params[0], [Sym(',')]);
      assert [Sym(',')][1..] == [];
    }
  }

  lemma JoinOk(params: seq<seq<Node>>)
    requires ParamsOk(params)
    ensures NodesOk(JoinParams(params))
  {
    if params != [] { JoinCounts(params); }
  }

  // ---- the matcher skips balanced text ----

  ghost predicate SpelledBefore(text: string, at: int, s: string) {
    && -1 <= at < |text| && |s| <= at + 1
    && text[at + 1 - |s|..at + 1] == s
  }

  lemma BeforeSplit(text: string, at: int, a: string, b: string)
    requires SpelledBefore(text, at, a + b)
    ensures SpelledBefore(text, at, b) && SpelledBefore(text, at - |b|, a)
  {
    var all := text[at + 1 - |a + b|..at + 1];
    assert all == a + b;
    assert text[at + 1 - |b|..at + 1] == all[|a|..] && text[at + 1 - |b| - |a|..at + 1 - |b|] == all[..|a|];
  }

  lemma OneMatched(text: string, at: int, depth: int, c: char)
    requires depth > 0 && SpelledBefore(text, at, [c])
    ensures at >= 0 && text[at] == c
    ensures c != '(' && c != ')' ==> MatchBack(text, at, depth) == MatchBack(text, at - 1, depth)
    ensures c == ')' ==> MatchBack(text, at, depth) == MatchBack(text, at - 1, depth + 1)
    ensures c == '(' && depth > 1 ==> MatchBack(text, at, depth) == MatchBack(text, at - 1, depth - 1)
  {
    assert text[at..at + 1][0] == c;
  }

  lemma IsBefore(text: string, at: int, s: string)
    requires SpelledBefore(text, at, s)
    ensures -1 <= at - |s| < |text| && -1 <= at < |text|
  {
  }

  lemma {:induction false} NodeSkipped(text: string, at: int, depth: int, x: Node)
    requires NodeOk(x) && depth > 0 && SpelledBefore(text, at, SpellNode(x))
    ensures -1 <= at - |SpellNode(x)| && at < |text|
    ensures MatchBack(text, at, depth) == MatchBack(text, at - |SpellNode(x)|, depth)
    decreases x, 0
  {
    hide MatchBack, SpelledBefore, SpellNodes;
    IsBefore(text, at, SpellNode(x));
    match x
    case Sym(c) =>
      OneMatched(text, at, depth, c);
    case Paren(inner) =>
      var body := SpellNodes(inner);
      BeforeSplit(text, at, "(" + body, ")");
      OneMatched(text, at, depth, ')');
      BeforeSplit(text, at - 1, "(", body);
      NodesSkipped(text, at - 1, depth + 1, inner);
      OneMatched(text, at - 1 - |body|, depth + 1, '(');
  }

  lemma SpellOne(x: Node)
    ensures SpellNodes([x]) == SpellNode(x)
  {
    hide SpellNode;
    assert [x][1..] == [];
  }

  lemma SpellLast(xs: seq<Node>)
    requires xs != []
    ensures SpellNodes(xs) == SpellNodes(xs[..|xs| - 1]) + SpellNode(xs[|xs| - 1])
  {
    hide SpellNodes, SpellNode;
    var init, last := xs[..|xs| - 1], xs[|xs| - 1];
    assert xs == init + [last];
    SpellNodesAppend(init, [last]);
    SpellOne(last);
  }

  lemma {:induction false} NodesSkipped(text: string, at: int, depth: int, xs: seq<Node>)
    requires NodesOk(xs) && depth > 0 && SpelledBefore(text, at, SpellNodes(xs))
    ensures -1 <= at - |SpellNodes(xs)| && at < |text|
    ensures MatchBack(text, at, depth) == MatchBack(text, at - |SpellNodes(xs)|, depth)
    decreases xs, 1
  {
    hide MatchBack, SpelledBefore, SpellNode;
    IsBefore(text, at, SpellNodes(xs));
    if xs != [] {
      var init, last := xs[..|xs| - 1], xs[|xs| - 1];
      SpellLast(xs);
      hide SpellNodes;
      BeforeSplit(text, at, SpellNodes(init), SpellNode(last));
      NodeSkipped(text, at, depth, last);
      NodesSkipped(text, at - |SpellNode(last)|, depth, init);
    }
  }

  lemma OpenFound(head: string, xs: seq<Node>, tail: string)
    requires NodesOk(xs) && forall i :: 0 <= i < |tail| ==> tail[i] != ')'
    ensures var text := head + "(" + SpellNodes(xs) + ")" + tail;
      var end := |head| + 1 + |SpellNodes(xs)|;
      LastIndex(text, ')', |text|) == end && MatchBack(text, end, 0) == |head|
  {
    var text := head + "(" + SpellNodes(xs) + ")" + tail;
    var end := |head| + 1 + |SpellNodes(xs)|;
    assert text[end] == ')' && forall j :: end < j < |text| ==> text[j] == tail[j - end - 1];
    assert text[end - |SpellNodes(xs)|..end] == SpellNodes(xs);
    NodesSkipped(text, end - 1, 1, xs);
    assert text[|head|] == '(';
  }

  // ---- the key ----

  datatype Key = Key(name: string, arity: nat)

  const ANONYMOUS := "(anonymous namespace)::"

  const SPECIAL := ["vtable", "typeinfo", "VTT", "guard", "non-virtual", "virtual thunk"]

  predicate IsSpecial(demangled: string) {
    exists i :: 0 <= i < |SPECIAL| && SPECIAL[i] <= demangled
  }

  /** `s` without the occurrences of `pattern`, found from the left. */
  function Remove(s: string, pattern: string): (r: string)
    requires pattern != ""
    decreases |s|
  {
    if s == "" then ""
    else if pattern <= s then Remove(s[|pattern|..], pattern)
    else [s[0]] + Remove(s[1..], pattern)
  }

  function NameOf(before: string): (r: string) {
    var trimmed := Trim(Remove(before, ANONYMOUS));
    trimmed[LastIndex(trimmed, ' ', |trimmed|) + 1..]
  }

  function ArityOf(inside: string): (n: nat) {
    if Trim(inside) in ["", "void"] then 0 else 1 + Commas(Trim(inside), 0)
  }

  /** The key of a demangled symbol as the steps of the source define it. */
  function KeyOf(demangled: string): (r: Option<Key>) {
    if IsSpecial(demangled) then None
    else
      var text := Kept(demangled, 0);
      var end := LastIndex(text, ')', |text|);
      if end < 0 then None
      else
        var start := MatchBack(text, end, 0);
        if start < 0 then None
        else
          assert text[end] == ')';
          Some(Key(NameOf(text[..start]), ArityOf(if start < end then text[start + 1..end] else "")))
  }

  method Compute(demangled: string) returns (r: Option<Key>)
    ensures r == KeyOf(demangled)
  {
    if IsSpecial(demangled) { return None; }
    var text := StripTemplateArguments(demangled);
    var end := LastIndex(text, ')', |text|);
    if end < 0 { return None; }
    var start := FindOpen(text, end);
    if start < 0 { return None; }
    OpenIsBefore(text, end);
    var arity := Arity(text[start + 1..end]);
    r := Some(Key(NameOf(text[..start]), arity));
  }

  lemma OpenIsBefore(text: string, end: nat)
    requires end < |text| && text[end] == ')'
    ensures MatchBack(text, end, 0) < end
  {
  }

  /** The two texts differ only inside their angle groups. */
  ghost predicate SameOutside(ps: seq<Piece>, qs: seq<Piece>) {
    && |ps| == |qs|
    && forall i :: 0 <= i < |ps| ==> ps[i] == qs[i] || (ps[i].Angle? && qs[i].Angle?)
  }

  lemma {:induction false} SameVisible(ps: seq<Piece>, qs: seq<Piece>)
    requires SameOutside(ps, qs)
    ensures Visible(ps) == Visible(qs)
  {
    if ps != [] { SameVisible(ps[1..], qs[1..]); }
  }

  lemma {:induction false} SamePrefix(ps: seq<Piece>, qs: seq<Piece>, prefix: string)
    requires SameOutside(ps, qs) && prefix <= SpellAll(ps)
    requires forall i :: 0 <= i < |prefix| ==> prefix[i] != '<'
    ensures prefix <= SpellAll(qs)
    decreases |ps|
  {
    if prefix != "" && ps != [] {
      assert prefix[0] == SpellAll(ps)[0];
      if ps[0].Char? {
        assert ps[0] == qs[0] && SpellAll(ps) == [ps[0].c] + SpellAll(ps[1..])
          && SpellAll(qs) == [ps[0].c] + SpellAll(qs[1..]);
        assert prefix[1..] <= SpellAll(ps[1..]) by { assert SpellAll(ps)[1..] == SpellAll(ps[1..]); }
        SamePrefix(ps[1..], qs[1..], prefix[1..]);
        assert prefix == [prefix[0]] + prefix[1..];
      }
    }
  }

  lemma SameSpecial(ps: seq<Piece>, qs: seq<Piece>)
    requires SameOutside(ps, qs) && IsSpecial(SpellAll(ps))
    ensures IsSpecial(SpellAll(qs))
  {
    var i :| 0 <= i < |SPECIAL| && SPECIAL[i] <= SpellAll(ps);
    SamePrefix(ps, qs, SPECIAL[i]);
  }

  /** Changing text only inside balanced angle groups never changes the key. */
  lemma ArgumentsDoNotMatter(ps: seq<Piece>, qs: seq<Piece>)
    requires PiecesOk(ps, true) && PiecesOk(qs, true) && SameOutside(ps, qs)
    ensures KeyOf(SpellAll(ps)) == KeyOf(SpellAll(qs))
  {
    KeepsVisible(ps);
    KeepsVisible(qs);
    SameVisible(ps, qs);
    hide SpellAll;
    if IsSpecial(SpellAll(ps)) { SameSpecial(ps, qs); }
    if IsSpecial(SpellAll(qs)) { SameSpecial(qs, ps); }
  }

  lemma ArityCounts(params: seq<seq<Node>>)
    requires ParamsOk(params)
    ensures ArityOf(SpellNodes(JoinParams(params)))
         == if Trim(SpellNodes(JoinParams(params))) in ["", "void"] then 0 else |params|
  {
    var inside := SpellNodes(JoinParams(params));
    if params != [] {
      JoinCounts(params);
      NodesCommas(JoinParams(params), 0, "");
      assert inside + "" == inside;
      TrimLeftCommas(inside, 0);
      TrimRightCommas(TrimLeft(inside), 0);
    }
  }

  lemma KeyOfText(demangled: string, head: string, inside: string, tail: string)
    requires Kept(demangled, 0) == head + "(" + inside + ")" + tail && !IsSpecial(demangled)
    requires LastIndex(Kept(demangled, 0), ')', |Kept(demangled, 0)|) == |head| + 1 + |inside|
    requires MatchBack(Kept(demangled, 0), |head| + 1 + |inside|, 0) == |head|
    ensures KeyOf(demangled) == Some(Key(NameOf(head), ArityOf(inside)))
  {
    hide NameOf;
    hide ArityOf;
    hide IsSpecial;
    hide Kept;
    var text := Kept(demangled, 0);
    assert text[..|head|] == head;
    assert text[|head| + 1..|head| + 1 + |inside|] == inside;
  }

  // ---- the name ----

  /** A name's text: its characters, with anonymous namespaces among them. */
  datatype Mark = Anonymous | Letter(c: char)

  function SpellMarks(ms: seq<Mark>): (s: string) {
    if ms == [] then ""
    else (if ms[0].Anonymous? then "(anonymous namespace)::" else [ms[0].c]) + SpellMarks(ms[1..])
  }

  function Letters(ms: seq<Mark>): (s: string) {
    if ms == [] then "" else (if ms[0].Anonymous? then "" else [ms[0].c]) + Letters(ms[1..])
  }

  /** Exactly the anonymous namespaces are removed. */
  lemma {:induction false} RemovesAnonymous(ms: seq<Mark>)
    requires forall i :: 0 <= i < |ms| && ms[i].Letter? ==> ms[i].c != '('
    ensures Remove(SpellMarks(ms), ANONYMOUS) == Letters(ms)
  {
    if ms != [] {
      var rest := SpellMarks(ms[1..]);
      RemovesAnonymous(ms[1..]);
      if ms[0].Anonymous? {
        assert (ANONYMOUS + rest)[|ANONYMOUS|..] == rest;
      } else {
        assert ANONYMOUS[0] == '(' && ([ms[0].c] + rest)[0] != '(';
        assert ([ms[0].c] + rest)[1..] == rest;
      }
    }
  }

  /** Blanks before a word end nowhere but at it: what stays of them is a part of their end. */
  lemma {:induction false} TrimLeftStops(before: string, word: string)
    requires word != "" && !IsSpace(word[0])
    ensures exists k :: 0 <= k <= |before| && TrimLeft(before + word) == before[k..] + word
  {
    if before == "" {
      assert before + word == word;
      assert TrimLeft(before + word) == before[0..] + word;
    } else if IsSpace(before[0]) {
      assert (before + word)[1..] == before[1..] + word;
      TrimLeftStops(before[1..], word);
      var k :| 0 <= k <= |before[1..]| && TrimLeft(before[1..] + word) == before[1..][k..] + word;
      assert before[1..][k..] == before[k + 1..];
    } else {
      assert TrimLeft(before + word) == before[0..] + word;
    }
  }

  lemma {:induction false} TrimRightStops(word: string, after: string)
    requires word != "" && !IsSpace(word[|word| - 1]) && forall i :: 0 <= i < |after| ==> IsSpace(after[i])
    ensures TrimRight(word + after) == word
  {
    if after == "" {
      assert word + after == word;
    } else {
      assert (word + after)[..|word + after| - 1] == word + after[..|after| - 1];
      TrimRightStops(word, after[..|after| - 1]);
    }
  }

  lemma {:induction false} LastBlank(before: string, word: string, n: nat)
    requires |before| <= n <= |before + word| && forall i :: 0 <= i < |word| ==> word[i] != ' '
    requires before != "" ==> before[|before| - 1] == ' '
    ensures LastIndex(before + word, ' ', n) == |before| - 1
  {
    if n > |before| {
      assert (before + word)[n - 1] == word[n - 1 - |before|];
      LastBlank(before, word, n - 1);
    }
  }

  /** A word without white space. */
  ghost predicate IsWord(word: string) {
    word != "" && forall i :: 0 <= i < |word| ==> !IsSpace(word[i])
  }

  lemma TrimmedWord(before: string, word: string, after: string) returns (left: string)
    requires IsWord(word) && (before != "" ==> before[|before| - 1] == ' ') && forall i :: 0 <= i < |after| ==>
      IsSpace(after[i])
    ensures Trim(before + word + after) == left + word && (left != "" ==> left[|left| - 1] == ' ')
  {
    hide TrimLeft, TrimRight, IsSpace;
    assert before + word + after == before + (word + after);
    TrimLeftStops(before, word + after);
    var k :| 0 <= k <= |before| && TrimLeft(before + (word + after)) == before[k..] + (word + after);
    left := before[k..];
    assert left + (word + after) == left + word + after;
    TrimRightStops(left + word, after);
  }

  lemma WordAfterBlank(left: string, word: string)
    requires IsWord(word) && (left != "" ==> left[|left| - 1] == ' ')
    ensures (left + word)[LastIndex(left + word, ' ', |left + word|) + 1..] == word
  {
    hide LastIndex;
    assert IsSpace(' ');
    LastBlank(left, word, |left + word|);
  }

  /** The name is the last word of the text before the parameter list, its anonymous namespaces left out, whatever
      stands before it. */
  lemma NameIsLastWord(ms: seq<Mark>, before: string, word: string, after: string)
    requires forall i :: 0 <= i < |ms| && ms[i].Letter? ==> ms[i].c != '('
    requires Letters(ms) == before + word + after && IsWord(word)
    requires (before != "" ==> before[|before| - 1] == ' ') && forall i :: 0 <= i < |after| ==> IsSpace(after[i])
    ensures NameOf(SpellMarks(ms)) == word
  {
    hide Remove, SpellMarks, Letters, Trim, LastIndex, IsWord, IsSpace, ANONYMOUS;
    RemovesAnonymous(ms);
    var left := TrimmedWord(before, word, after);
    WordAfterBlank(left, word);
  }

  /** The key of a function symbol: the name in the text before its parameter list, and the number of top-level
      parameters, whatever their own parentheses and template arguments hold. */
  lemma KeyOfFunction(ps: seq<Piece>, head: string, params: seq<seq<Node>>, tail: string)
    requires PiecesOk(ps, true) && ParamsOk(params)
    requires forall i :: 0 <= i < |tail| ==> tail[i] != ')'
    requires Visible(ps) == head + "(" + SpellNodes(JoinParams(params)) + ")" + tail
    requires !IsSpecial(SpellAll(ps))
    ensures KeyOf(SpellAll(ps))
         == Some(Key(NameOf(head), if Trim(SpellNodes(JoinParams(params))) in ["", "void"] then 0 else |params|))
  {
    hide *;
    JoinOk(params);
    KeepsVisible(ps);
    OpenFound(head, JoinParams(params), tail);
    ArityCounts(params);
    KeyOfText(SpellAll(ps), head, SpellNodes(JoinParams(params)), tail);
  }

  /** Spelled out: return type, word, parameters and qualifiers give the word, without its anonymous namespaces, and
      the number of parameters. */
  lemma KeyOfNamedFunction(ps: seq<Piece>, ms: seq<Mark>, before: string, word: string, params: seq<seq<Node>>,
                           tail: string)
    requires PiecesOk(ps, true) && ParamsOk(params) && !IsSpecial(SpellAll(ps))
    requires forall i :: 0 <= i < |tail| ==> tail[i] != ')'
    requires Visible(ps) == SpellMarks(ms) + "(" + SpellNodes(JoinParams(params)) + ")" + tail
    requires forall i :: 0 <= i < |ms| && ms[i].Letter? ==> ms[i].c != '('
    requires Letters(ms) == before + word && IsWord(word) && (before != "" ==> before[|before| - 1] == ' ')
    ensures KeyOf(SpellAll(ps)) ==
      Some(Key(word, if Trim(SpellNodes(JoinParams(params))) in ["", "void"] then 0 else |params|))
  {
    hide *;
    KeyOfFunction(ps, SpellMarks(ms), params, tail);
    assert before + word + "" == before + word;
    NameIsLastWord(ms, before, word, "");
  }

  // ---- where there is no key ----

  /** A text that starts like a compiler-made symbol. */
  ghost predicate StartsSpecial(demangled: string) {
    || "vtable" <= demangled || "typeinfo" <= demangled || "VTT" <= demangled
    || "guard" <= demangled || "non-virtual" <= demangled || "virtual thunk" <= demangled
  }

  lemma SpecialMeans(demangled: string)
    ensures IsSpecial(demangled) <==> StartsSpecial(demangled)
  {
    assert SPECIAL[0] == "vtable" && SPECIAL[1] == "typeinfo" && SPECIAL[2] == "VTT";
    assert SPECIAL[3] == "guard" && SPECIAL[4] == "non-virtual" && SPECIAL[5] == "virtual thunk";
  }

  lemma {:induction false} NoneFound(text: string, c: char, n: nat)
    requires n <= |text|
    ensures LastIndex(text, c, n) < 0 <==> c !in text[..n]
  {
    if n > 0 {
      NoneFound(text, c, n - 1);
      assert text[..n] == text[..n - 1] + [text[n - 1]];
    }
  }

  /** A text that starts like a compiler-made symbol has no key, and neither has one without a closing parenthesis
      outside its angle groups; any other has one, unless that parenthesis closes nothing. */
  lemma NoKeyIff(ps: seq<Piece>)
    requires PiecesOk(ps, true)
    ensures var demangled, seen := SpellAll(ps), Visible(ps);
      KeyOf(demangled) == None <==>
        || StartsSpecial(demangled) || ')' !in seen
        || MatchBack(seen, LastIndex(seen, ')', |seen|), 0) < 0
  {
    hide Kept, SpellAll, Visible, IsSpecial, StartsSpecial, NameOf, ArityOf, LastIndex, MatchBack;
    SpecialMeans(SpellAll(ps));
    KeepsVisible(ps);
    var seen := Visible(ps);
    NoneFound(seen, ')', |seen|);
    assert seen[..|seen|] == seen;
  }
}
