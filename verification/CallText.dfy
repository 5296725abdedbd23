/** The extent of one call in C source text: from its name through its close parenthesis. */
module CallText {
  import opened Outcomes

  datatype Quote = Outside | Inside(mark: char, escaped: bool)

  // ---- the scan ----

  /** Where the scan ends when it stands at `index`. */
  function ScanFrom(source: string, index: nat, depth: int, quote: Quote): (end: nat)
    requires index <= |source|
    ensures index <= end <= |source|
    decreases |source| - index
  {
    if index == |source| then index
    else
      var c := source[index];
      match quote
      case Inside(mark, escaped) =>
        if escaped then ScanFrom(source, index + 1, depth, Inside(mark, false))
        else if c == '\\' then ScanFrom(source, index + 1, depth, Inside(mark, true))
        else if c == mark then ScanFrom(source, index + 1, depth, Outside)
        else ScanFrom(source, index + 1, depth, quote)
      case Outside =>
        if c == '\"' || c == '\'' then ScanFrom(source, index + 1, depth, Inside(c, false))
        else if c == '(' then ScanFrom(source, index + 1, depth + 1, Outside)
        else if c == ')' then if depth == 1 then index + 1 else ScanFrom(source, index + 1, depth - 1, Outside)
        else if depth == 0 && c == ';' then index
        else ScanFrom(source, index + 1, depth, Outside)
  }

  /** The text of the call that starts at `offset`. */
  method Scan(source: string, offset: nat) returns (text: string)
    requires offset <= |source|
    ensures text == source[offset..ScanFrom(source, offset, 0, Outside)]
  {
    var depth, quote, index := 0, Outside, offset;
    while index < |source|
      invariant offset <= index <= |source|
      invariant ScanFrom(source, offset, 0, Outside) == ScanFrom(source, index, depth, quote)
    {
      var c := source[index];
      if quote.Inside? {
        if quote.escaped { quote := Inside(quote.mark, false); }
        else if c == '\\' { quote := Inside(quote.mark, true); }
        else if c == quote.mark { quote := Outside; }
      } else if c == '\"' || c == '\'' {
        quote := Inside(c, false);
      } else if c == '(' {
        depth := depth + 1;
      } else if c == ')' {
        depth := depth - 1;
        if depth == 0 {
          return source[offset..index + 1];
        }
      } else if depth == 0 && c == ';' {
        return source[offset..index];
      }
      index := index + 1;
    }
    text := source[offset..index];
  }

  // ---- the grammar of a call ----

  /** One character of a literal: plain, or a backslash and any character. */
  datatype Letter = Plain(c: char) | Escape(c: char)

  datatype Item = Code(c: char) | Literal(mark: char, letters: seq<Letter>) | Group(items: seq<Item>)

  predicate LetterOk(mark: char, x: Letter) {
    x.Plain? ==> x.c != mark && x.c != '\\'
  }

  ghost predicate ItemOk(x: Item) {
    match x
    case Code(c) => c != '\"' && c != '\'' && c != '(' && c != ')'
    case Literal(mark, letters) =>
      (mark == '\"' || mark == '\'') && forall i :: 0 <= i < |letters| ==> LetterOk(mark, letters[i])
    case Group(items) => forall i :: 0 <= i < |items| ==> ItemOk(items[i])
  }

  ghost predicate ItemsOk(items: seq<Item>) {
    forall i :: 0 <= i < |items| ==> ItemOk(items[i])
  }

  function SpellLetters(letters: seq<Letter>): (s: string) {
    if letters == [] then ""
    else (match letters[0] case Plain(c) => [c] case Escape(c) => ['\\', c]) + SpellLetters(letters[1..])
  }

  function SpellItem(x: Item): (s: string)
    decreases x, 0
  {
    match x
    case Code(c) => [c]
    case Literal(mark, letters) => [mark] + SpellLetters(letters) + [mark]
    case Group(items) => "(" + SpellItems(items) + ")"
  }

  function SpellItems(items: seq<Item>): (s: string)
    decreases items, 1
  {
    if items == [] then "" else SpellItem(items[0]) + SpellItems(items[1..])
  }

  /** A callee's name, and the blanks before its arguments: nothing that opens, closes, quotes or ends. */
  ghost predicate NameOk(name: string) {
    forall i :: 0 <= i < |name| ==> name[i] !in {'\"', '\'', '(', ')', ';'}
  }

  // ---- the scan follows the grammar ----

  /** `text` stands in the source at `index`. */
  ghost predicate At(source: string, index: nat, text: string) {
    index + |text| <= |source| && source[index..index + |text|] == text
  }

  lemma AtSplit(source: string, index: nat, a: string, b: string)
    requires At(source, index, a + b)
    ensures At(source, index, a) && At(source, index + |a|, b)
  {
    var all := source[index..index + |a + b|];
    assert all[..|a|] == a && all[|a|..] == b;
    assert source[index..index + |a|] == all[..|a|];
    assert source[index + |a|..index + |a| + |b|] == all[|a|..];
  }

  lemma AtChar(source: string, index: nat, text: string)
    requires At(source, index, text) && text != ""
    ensures index < |source| && source[index] == text[0] && At(source, index + 1, text[1..])
  {
    assert text == [text[0]] + text[1..];
    AtSplit(source, index, [text[0]], text[1..]);
    assert source[index..index + 1][0] == text[0];
  }

  lemma {:induction false} LettersPass(source: string, index: nat, depth: int, mark: char, letters: seq<Letter>)
    requires At(source, index, SpellLetters(letters) + [mark]) && mark != '\\'
    requires forall i :: 0 <= i < |letters| ==> LetterOk(mark, letters[i])
    ensures ScanFrom(source, index, depth, Inside(mark, false))
         == ScanFrom(source, index + |SpellLetters(letters)| + 1, depth, Outside)
    decreases |letters|
  {
    var text := SpellLetters(letters) + [mark];
    AtChar(source, index, text);
    if letters != [] {
      var tail := SpellLetters(letters[1..]) + [mark];
      match letters[0]
      case Plain(c) =>
        assert text[1..] == tail;
        LettersPass(source, index + 1, depth, mark, letters[1..]);
      case Escape(c) =>
        assert text[1..] == [c] + tail;
        AtChar(source, index + 1, text[1..]);
        assert text[1..][1..] == tail;
        LettersPass(source, index + 2, depth, mark, letters[1..]);
    }
  }

  /** Inside an open group an item is passed whole: whatever parentheses, quotes and semicolons its literals
      hold, the depth is the same after it. */
  lemma {:induction false} ItemPasses(source: string, index: nat, depth: int, x: Item)
    requires ItemOk(x) && depth > 0 && At(source, index, SpellItem(x))
    ensures ScanFrom(source, index, depth, Outside) == ScanFrom(source, index + |SpellItem(x)|, depth, Outside)
    decreases x, 0
  {
    AtChar(source, index, SpellItem(x));
    hide At;
    match x
    case Code(c) =>
    case Literal(mark, letters) =>
      assert SpellItem(x)[1..] == SpellLetters(letters) + [mark];
      LettersPass(source, index + 1, depth, mark, letters);
    case Group(items) =>
      assert SpellItem(x)[1..] == SpellItems(items) + ")";
      AtSplit(source, index + 1, SpellItems(items), ")");
      ItemsPass(source, index + 1, depth + 1, items);
      Closes(source, index, depth, index + 1 + |SpellItems(items)|);
  }

  lemma Closes(source: string, open: nat, depth: int, close: nat)
    requires depth > 0 && open < close < |source| && source[open] == '(' && At(source, close, ")")
    requires ScanFrom(source, open + 1, depth + 1, Outside) == ScanFrom(source, close, depth + 1, Outside)
    ensures ScanFrom(source, open, depth, Outside) == ScanFrom(source, close + 1, depth, Outside)
  {
    AtChar(source, close, ")");
  }

  lemma {:induction false} ItemsPass(source: string, index: nat, depth: int, items: seq<Item>)
    requires ItemsOk(items) && depth > 0 && At(source, index, SpellItems(items))
    ensures ScanFrom(source, index, depth, Outside) == ScanFrom(source, index + |SpellItems(items)|, depth, Outside)
    decreases items, 1
  {
    if items != [] {
      AtSplit(source, index, SpellItem(items[0]), SpellItems(items[1..]));
      ItemPasses(source, index, depth, items[0]);
      ItemsPass(source, index + |SpellItem(items[0])|, depth, items[1..]);
    }
  }

  lemma {:induction false} NamePasses(source: string, index: nat, name: string)
    requires NameOk(name) && At(source, index, name)
    ensures ScanFrom(source, index, 0, Outside) == ScanFrom(source, index + |name|, 0, Outside)
    decreases |name|
  {
    if name != "" {
      AtChar(source, index, name);
      NamePasses(source, index + 1, name[1..]);
    }
  }

  lemma OpenPasses(source: string, i: nat, name: string, rest: string)
    requires NameOk(name) && At(source, i, name + ("(" + rest))
    ensures At(source, i + |name| + 1, rest)
    ensures ScanFrom(source, i, 0, Outside) == ScanFrom(source, i + |name| + 1, 1, Outside)
  {
    hide At;
    AtSplit(source, i, name, "(" + rest);
    NamePasses(source, i, name);
    AtSplit(source, i + |name|, "(", rest);
    AtChar(source, i + |name|, "(");
  }

  lemma CallEnds(source: string, i: nat, name: string, args: seq<Item>)
    requires NameOk(name) && ItemsOk(args) && At(source, i, name + ("(" + (SpellItems(args) + ")")))
    ensures ScanFrom(source, i, 0, Outside) == i + |name| + |SpellItems(args)| + 2
  {
    hide At;
    OpenPasses(source, i, name, SpellItems(args) + ")");
    AtSplit(source, i + |name| + 1, SpellItems(args), ")");
    ItemsPass(source, i + |name| + 1, 1, args);
    AtChar(source, i + |name| + 1 + |SpellItems(args)|, ")");
  }

  /** On every call the grammar spells, wherever it stands and whatever follows it, the scan stops exactly after the
      matching close parenthesis. */
  lemma CallIsExact(before: string, name: string, args: seq<Item>, after: string)
    requires NameOk(name) && ItemsOk(args)
    ensures var call := Call(name, args);
      ScanFrom(before + call + after, |before|, 0, Outside) == |before + call|
  {
    hide SpellItems;
    hide ScanFrom;
    var call := Call(name, args);
    var source := before + call + after;
    assert source[|before|..|before| + |call|] == call;
    CallEnds(source, |before|, name, args);
  }

  // ---- and only the grammar ----

  function ParseLetters(source: string, index: nat, mark: char): (r: Option<(seq<Letter>, nat)>)
    requires index <= |source|
    ensures r.Some? ==> index <= r.value.1 < |source|
    decreases |source| - index
  {
    if index == |source| then None
    else if source[index] == mark then Some(([], index))
    else if source[index] == '\\' then
      if index + 1 == |source| then None
      else match ParseLetters(source, index + 2, mark)
        case None => None
        case Some(tail) => Some(([Escape(source[index + 1])] + tail.0, tail.1))
    else match ParseLetters(source, index + 1, mark)
      case None => None
      case Some(tail) => Some(([Plain(source[index])] + tail.0, tail.1))
  }

  /** The items from `index` to the close parenthesis of the group they stand in, and where that is. */
  function ParseItems(source: string, index: nat): (r: Option<(seq<Item>, nat)>)
    requires index <= |source|
    ensures r.Some? ==> index <= r.value.1 < |source|
    decreases |source| - index
  {
    if index == |source| then None
    else if source[index] == ')' then Some(([], index))
    else if source[index] == '(' then
      match ParseItems(source, index + 1)
      case None => None
      case Some(inner) => Then(Group(inner.0), ParseItems(source, inner.1 + 1))
    else if source[index] == '\"' || source[index] == '\'' then
      match ParseLetters(source, index + 1, source[index])
      case None => None
      case Some(inner) => Then(Literal(source[index], inner.0), ParseItems(source, inner.1 + 1))
    else Then(Code(source[index]), ParseItems(source, index + 1))
  }

  function Then(x: Item, rest: Option<(seq<Item>, nat)>): (r: Option<(seq<Item>, nat)>) {
    if rest.None? then None else Some(([x] + rest.value.0, rest.value.1))
  }

  lemma AtJoin(source: string, index: nat, a: string, b: string)
    requires At(source, index, a) && At(source, index + |a|, b)
    ensures At(source, index, a + b)
  {
    assert source[index..index + |a| + |b|] == source[index..index + |a|] + source[index + |a|..index + |a| + |b|];
  }

  /** The scan from inside a literal reaches the closing mark that `r` names, past letters that spell the source. */
  ghost predicate LettersAgree(source: string, index: nat, depth: int, mark: char, r: Option<(seq<Letter>, nat)>)
    requires index <= |source|
  {
    match r
    case None => ScanFrom(source, index, depth, Inside(mark, false)) == |source|
    case Some(found) =>
      && found.1 < |source| && source[found.1] == mark
      && found.1 == index + |SpellLetters(found.0)| && At(source, index, SpellLetters(found.0))
      && (forall i :: 0 <= i < |found.0| ==> LetterOk(mark, found.0[i]))
      && ScanFrom(source, index, depth, Inside(mark, false)) == ScanFrom(source, found.1 + 1, depth, Outside)
  }

  lemma LetterJoins(source: string, index: nat, depth: int, mark: char, x: Letter, next: nat,
                    r: Option<(seq<Letter>, nat)>)
    requires index < next <= |source| && LetterOk(mark, x) && At(source, index, SpellLetters([x]))
      && next == index + |SpellLetters([x])|
    requires ScanFrom(source, index, depth, Inside(mark, false)) == ScanFrom(source, next, depth, Inside(mark, false))
    requires LettersAgree(source, next, depth, mark, r)
    ensures LettersAgree(source, index, depth, mark, if r.None? then None else Some(([x] + r.value.0, r.value.1)))
  {
    hide ScanFrom;
    if r.Some? {
      assert ([x] + r.value.0)[1..] == r.value.0 && [x][1..] == [];
      assert SpellLetters([x]) + SpellLetters(r.value.0) == SpellLetters([x] + r.value.0);
      AtJoin(source, index, SpellLetters([x]), SpellLetters(r.value.0));
    }
  }

  lemma {:induction false} LettersParsed(source: string, index: nat, depth: int, mark: char)
    requires index <= |source| && mark != '\\'
    ensures LettersAgree(source, index, depth, mark, ParseLetters(source, index, mark))
    decreases |source| - index
  {
    if index == |source| || source[index] == mark {
    } else if source[index] == '\\' {
      if index + 1 < |source| {
        var x := Escape(source[index + 1]);
        assert [x][1..] == [] && SpellLetters([x]) == source[index..index + 2];
        LettersParsed(source, index + 2, depth, mark);
        LetterJoins(source, index, depth, mark, x, index + 2, ParseLetters(source, index + 2, mark));
      }
    } else {
      var x := Plain(source[index]);
      assert [x][1..] == [] && SpellLetters([x]) == source[index..index + 1];
      LettersParsed(source, index + 1, depth, mark);
      LetterJoins(source, index, depth, mark, x, index + 1, ParseLetters(source, index + 1, mark));
    }
  }

  ghost predicate Parsed(source: string, index: nat, items: seq<Item>, end: nat) {
    ItemsOk(items) && end == index + |SpellItems(items)| && At(source, index, SpellItems(items))
  }

  lemma ParsedCons(source: string, index: nat, x: Item, items: seq<Item>, end: nat)
    requires ItemOk(x) && At(source, index, SpellItem(x)) && Parsed(source, index + |SpellItem(x)|, items, end)
    ensures Parsed(source, index, [x] + items, end)
  {
    AtJoin(source, index, SpellItem(x), SpellItems(items));
    assert ([x] + items)[1..] == items;
  }

  lemma SpelledAt(source: string, index: nat, x: Item, inner: string, close: nat)
    requires index < |source| && At(source, index + 1, inner) && close == index + 1 + |inner| < |source|
    requires SpellItem(x) == [source[index]] + inner + [source[close]]
    ensures At(source, index, SpellItem(x)) && |SpellItem(x)| == close + 1 - index
  {
    AtJoin(source, index, [source[index]], inner);
    AtJoin(source, index, [source[index]] + inner, [source[close]]);
  }

  /** The scan from `index` reaches the close parenthesis that `r` names, past items that spell the source; with
      no such parenthesis it runs to the end. */
  ghost predicate Agrees(source: string, index: nat, depth: int, r: Option<(seq<Item>, nat)>)
    requires index <= |source|
  {
    match r
    case None => ScanFrom(source, index, depth, Outside) == |source|
    case Some(found) =>
      && found.1 < |source| && source[found.1] == ')' && Parsed(source, index, found.0, found.1)
      && ScanFrom(source, index, depth, Outside) == ScanFrom(source, found.1, depth, Outside)
  }

  lemma {:induction false} ItemsParsed(source: string, index: nat, depth: int)
    requires index <= |source| && depth > 0
    ensures Agrees(source, index, depth, ParseItems(source, index))
    decreases |source| - index, 1
  {
    if index == |source| || source[index] == ')' {
    } else if source[index] == '(' {
      GroupParsed(source, index, depth);
    } else if source[index] == '\"' || source[index] == '\'' {
      LiteralParsed(source, index, depth);
    } else {
      Resume(source, index, depth, Code(source[index]), index + 1);
    }
  }

  /** One step of the scan, and one of the grammar, at an open parenthesis. */
  lemma GroupOpens(source: string, index: nat, depth: int)
    requires index < |source| && depth > 0 && source[index] == '('
    ensures ScanFrom(source, index, depth, Outside) == ScanFrom(source, index + 1, depth + 1, Outside)
    ensures ParseItems(source, index) ==
      match ParseItems(source, index + 1)
      case None => None
      case Some(inner) => Then(Group(inner.0), ParseItems(source, inner.1 + 1))
  {
  }

  /** And at the close parenthesis of a group that is not the outermost. */
  lemma GroupCloses(source: string, close: nat, depth: int)
    requires close < |source| && depth > 0 && source[close] == ')'
    ensures ScanFrom(source, close, depth + 1, Outside) == ScanFrom(source, close + 1, depth, Outside)
  {
  }

  lemma {:induction false} GroupParsed(source: string, index: nat, depth: int)
    requires index < |source| && depth > 0 && source[index] == '('
    ensures Agrees(source, index, depth, ParseItems(source, index))
    decreases |source| - index, 0
  {
    hide ScanFrom, ParseItems, SpellItems, Then;
    GroupOpens(source, index, depth);
    ItemsParsed(source, index + 1, depth + 1);
    if ParseItems(source, index + 1).Some? {
      var (inner, close) := ParseItems(source, index + 1).value;
      GroupCloses(source, close, depth);
      SpelledAt(source, index, Group(inner), SpellItems(inner), close);
      Resume(source, index, depth, Group(inner), close + 1);
    }
  }

  lemma QuoteOpens(source: string, index: nat, depth: int)
    requires index < |source| && depth > 0 && source[index] in {'\"', '\''}
    ensures ScanFrom(source, index, depth, Outside) == ScanFrom(source, index + 1, depth, Inside(source[index], false))
    ensures ParseItems(source, index) ==
      match ParseLetters(source, index + 1, source[index])
      case None => None
      case Some(inner) => Then(Literal(source[index], inner.0), ParseItems(source, inner.1 + 1))
  {
    hide ParseLetters;
  }

  lemma {:induction false} LiteralParsed(source: string, index: nat, depth: int)
    requires index < |source| && depth > 0 && source[index] in {'\"', '\''}
    ensures Agrees(source, index, depth, ParseItems(source, index))
    decreases |source| - index, 0
  {
    hide ScanFrom, ParseItems, ParseLetters, SpellLetters, Then, LetterOk;
    QuoteOpens(source, index, depth);
    LettersParsed(source, index + 1, depth, source[index]);
    if ParseLetters(source, index + 1, source[index]).Some? {
      var (inner, close) := ParseLetters(source, index + 1, source[index]).value;
      SpelledAt(source, index, Literal(source[index], inner), SpellLetters(inner), close);
      Resume(source, index, depth, Literal(source[index], inner), close + 1);
    }
  }

  lemma {:induction false} Resume(source: string, index: nat, depth: int, x: Item, next: nat)
    requires index < next <= |source| && depth > 0
    requires ItemOk(x) && At(source, index, SpellItem(x)) && next == index + |SpellItem(x)|
    requires ScanFrom(source, index, depth, Outside) == ScanFrom(source, next, depth, Outside)
    ensures Agrees(source, index, depth, Then(x, ParseItems(source, next)))
    decreases |source| - index, 0, 0
  {
    hide ScanFrom;
    ItemsParsed(source, next, depth);
    if ParseItems(source, next).Some? {
      ParsedCons(source, index, x, ParseItems(source, next).value.0, ParseItems(source, next).value.1);
    }
  }

  /** The call `name(args)`, spelled. */
  function Call(name: string, args: seq<Item>): (s: string) {
    name + ("(" + (SpellItems(args) + ")"))
  }

  lemma GrammarFindsCall(source: string, offset: nat, name: string)
    requires NameOk(name) && At(source, offset, name + "(") && ParseItems(source, offset + |name| + 1).Some?
    ensures ItemsOk(ParseItems(source, offset + |name| + 1).value.0)
    ensures At(source, offset, Call(name, ParseItems(source, offset + |name| + 1).value.0))
  {
    hide ScanFrom;
    hide SpellItems;
    var open := offset + |name| + 1;
    var args := ParseItems(source, open).value.0;
    ItemsParsed(source, open, 1);
    AtJoin(source, open, SpellItems(args), ")");
    AtJoin(source, offset, name + "(", SpellItems(args) + ")");
    assert name + "(" + (SpellItems(args) + ")") == Call(name, args);
  }

  /** The scan of any source that opens with a name and a parenthesis: it stops after a call the grammar spells, and
      only if the grammar spells none there does it run to the end. */
  lemma ScanIsTheGrammar(source: string, offset: nat, name: string)
    requires NameOk(name) && At(source, offset, name + "(")
    ensures if exists args :: ItemsOk(args) && At(source, offset, Call(name, args))
            then exists args ::
                   ItemsOk(args) && source[offset..ScanFrom(source, offset, 0, Outside)] == Call(name, args)
            else ScanFrom(source, offset, 0, Outside) == |source|
  {
    if args :| ItemsOk(args) && At(source, offset, Call(name, args)) {
      CallEnds(source, offset, name, args);
    } else {
      hide Call;
      hide ScanFrom;
      assert name + ("(" + "") == name + "(";
      OpenPasses(source, offset, name, "");
      ItemsParsed(source, offset + |name| + 1, 1);
      if ParseItems(source, offset + |name| + 1).Some? {
        GrammarFindsCall(source, offset, name);
        assert false;
      }
    }
  }
}
