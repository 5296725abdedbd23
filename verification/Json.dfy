/** JSON values as the comparison reads them, and their first difference. */
module Json {
  import opened Lexicographic

  datatype Json =
    | Null
    | Bool(b: bool)
    | Num(n: real)
    | Text(s: string)
    | Arr(items: seq<Json>)
    | Obj(fields: map<string, Json>)

  /** Equality of the compared values: a truth value equals the number it stands for. */
  predicate Same(a: Json, b: Json)
    decreases a
  {
    match (a, b)
    case (Null, Null) => true
    case (Bool(x), Bool(y)) => x == y
    case (Bool(x), Num(y)) => y == if x then 1.0 else 0.0
    case (Num(x), Bool(y)) => x == if y then 1.0 else 0.0
    case (Num(x), Num(y)) => x == y
    case (Text(x), Text(y)) => x == y
    case (Arr(x), Arr(y)) => |x| == |y| && forall i :: 0 <= i < |x| ==> Same(x[i], y[i])
    case (Obj(x), Obj(y)) => x.Keys == y.Keys && forall k :: k in x ==> Same(x[k], y[k])
    case _ => false
  }

  /** `dict.get`: a missing entry reads as null. */
  function Get(fields: map<string, Json>, key: string): (v: Json) {
    if key in fields then fields[key] else Null
  }

  datatype Step = Key(name: string) | Index(i: nat)

  datatype Difference = Difference(path: seq<Step>, pin: Json, subject: Json)

  function Differing(x: map<string, Json>, y: map<string, Json>): (s: set<string>) {
    set k | k in x.Keys + y.Keys && !Same(Get(x, k), Get(y, k))
  }

  /** The first differing pair of items. */
  function FirstIndex(x: seq<Json>, y: seq<Json>, from: nat): (i: nat)
    requires from <= |x| && from <= |y|
    ensures from <= i <= |x| && i <= |y|
    ensures forall j :: from <= j < i ==> Same(x[j], y[j])
    ensures i < |x| && i < |y| ==> !Same(x[i], y[i])
    ensures i == |x| || i == |y| || i < |x|
    decreases |x| - from
  {
    if from == |x| || from == |y| || !Same(x[from], y[from]) then from else FirstIndex(x, y, from + 1)
  }

  /** The first unequal descendant: dictionaries in key order, lists in index order. */
  ghost function FirstDifference(left: Json, right: Json): (d: Difference)
    decreases left
  {
    if left.Obj? && right.Obj? && Differing(left.fields, right.fields) != {} then
      var k := First(Differing(left.fields, right.fields));
      if k in left.fields then Under(Key(k), FirstDifference(left.fields[k], Get(right.fields, k)))
      else Difference([Key(k)], Null, right.fields[k])
    else if left.Arr? && right.Arr? && FirstIndex(left.items, right.items, 0) < |left.items|
            && FirstIndex(left.items, right.items, 0) < |right.items| then
      var i := FirstIndex(left.items, right.items, 0);
      Under(Index(i), FirstDifference(left.items[i], right.items[i]))
    else Difference([], left, right)
  }

  function Under(step: Step, d: Difference): (r: Difference) {
    d.(path := [step] + d.path)
  }

  // ---- what the difference means ----

  function Child(j: Json, step: Step): (v: Json) {
    match step
    case Key(k) => if j.Obj? then Get(j.fields, k) else Null
    case Index(i) => if j.Arr? && i < |j.items| then j.items[i] else Null
  }

  /** The value at a path; what is missing reads as null. */
  function At(j: Json, path: seq<Step>): (v: Json)
    decreases |path|
  {
    if path == [] then j else At(Child(j, path[0]), path[1..])
  }

  /** The step is the first place where the children of two containers of one kind differ. */
  ghost predicate FirstStep(left: Json, right: Json, step: Step) {
    match step
    case Key(k) =>
      && left.Obj? && right.Obj? && k in Differing(left.fields, right.fields)
      && forall other :: other in Differing(left.fields, right.fields) ==> TextAtMost(k, other)
    case Index(i) =>
      && left.Arr? && right.Arr? && i < |left.items| && i < |right.items| && !Same(left.items[i], right.items[i])
      && forall j :: 0 <= j < i ==> Same(left.items[j], right.items[j])
  }

  /** Every step of the path is a first difference of its own level. */
  ghost predicate EarlierAgree(left: Json, right: Json, path: seq<Step>)
    decreases |path|
  {
    path != [] ==>
        FirstStep(left, right, path[0]) && EarlierAgree(Child(left, path[0]), Child(right, path[0]), path[1..])
  }

  /** No pair of children differs: the difference is in the values themselves. */
  ghost predicate NoChildDiffers(left: Json, right: Json) {
    && (left.Obj? && right.Obj? ==> Differing(left.fields, right.fields) == {})
    && (left.Arr? && right.Arr? ==>
          forall i :: 0 <= i < |left.items| && i < |right.items| ==> Same(left.items[i], right.items[i]))
  }

  /** On unequal values the answer is a place where the two sides really differ, everything before it on the path
      agrees, and nothing below it differs. */
  lemma {:induction false} DifferenceIsFirst(left: Json, right: Json)
    requires !Same(left, right)
    ensures var d := FirstDifference(left, right);
      && d.pin == At(left, d.path) && d.subject == At(right, d.path)
      && !Same(d.pin, d.subject)
      && EarlierAgree(left, right, d.path)
      && NoChildDiffers(d.pin, d.subject)
    decreases left
  {
    var d := FirstDifference(left, right);
    if left.Obj? && right.Obj? && Differing(left.fields, right.fields) != {} {
      var k := First(Differing(left.fields, right.fields));
      if k in left.fields {
        DifferenceIsFirst(left.fields[k], Get(right.fields, k));
        PathGoesUnder(left, right, Key(k), FirstDifference(left.fields[k], Get(right.fields, k)));
      } else {
        PathGoesUnder(left, right, Key(k), Difference([], Null, right.fields[k]));
      }
    } else if left.Arr? && right.Arr? && FirstIndex(left.items, right.items, 0) < |left.items|
              && FirstIndex(left.items, right.items, 0) < |right.items| {
      var i := FirstIndex(left.items, right.items, 0);
      DifferenceIsFirst(left.items[i], right.items[i]);
      PathGoesUnder(left, right, Index(i), FirstDifference(left.items[i], right.items[i]));
    }
  }

  lemma PathGoesUnder(left: Json, right: Json, step: Step, d: Difference)
    requires FirstStep(left, right, step)
    requires d.pin == At(Child(left, step), d.path) && d.subject == At(Child(right, step), d.path)
    requires EarlierAgree(Child(left, step), Child(right, step), d.path)
    ensures var u := Under(step, d);
      u.pin == At(left, u.path) && u.subject == At(right, u.path) && EarlierAgree(left, right, u.path)
  {
    var u := Under(step, d);
    assert u.path[0] == step && u.path[1..] == d.path;
  }

  // ---- what the comparison sees ----

  /** A value with each truth value replaced by the number it stands for. */
  function Plain(j: Json): (r: Json)
    decreases j
  {
    match j
    case Bool(b) => Num(if b then 1.0 else 0.0)
    case Arr(items) => Arr(seq(|items|, i requires 0 <= i < |items| => Plain(items[i])))
    case Obj(fields) => Obj(map k | k in fields :: Plain(fields[k]))
    case _ => j
  }

  /** Two values compare equal exactly when they are the same value once truth values are numbers. */
  lemma {:induction false} SameIsPlain(a: Json, b: Json)
    ensures Same(a, b) <==> Plain(a) == Plain(b)
    decreases a
  {
    match (a, b)
    case (Arr(x), Arr(y)) => ItemsArePlain(x, y, a);
    case (Obj(x), Obj(y)) => FieldsArePlain(x, y, a);
    case _ =>
  }

  lemma {:induction false} ItemsArePlain(x: seq<Json>, y: seq<Json>, whole: Json)
    requires whole == Arr(x)
    ensures Same(Arr(x), Arr(y)) <==> Plain(Arr(x)) == Plain(Arr(y))
    decreases whole, 0
  {
    var p, q := Plain(Arr(x)).items, Plain(Arr(y)).items;
    assert |p| == |x| && |q| == |y|;
    if |x| == |y| {
      forall i | 0 <= i < |x|
        ensures Same(x[i], y[i]) <==> p[i] == q[i]
      {
        SameIsPlain(x[i], y[i]);
      }
      if Same(Arr(x), Arr(y)) { assert p == q; }
      if p == q { assert forall i :: 0 <= i < |x| ==> p[i] == q[i]; }
    }
  }

  lemma {:induction false} FieldsArePlain(x: map<string, Json>, y: map<string, Json>, whole: Json)
    requires whole == Obj(x)
    ensures Same(Obj(x), Obj(y)) <==> Plain(Obj(x)) == Plain(Obj(y))
    decreases whole, 0
  {
    var p, q := Plain(Obj(x)).fields, Plain(Obj(y)).fields;
    assert p.Keys == x.Keys && q.Keys == y.Keys;
    if x.Keys == y.Keys {
      forall k | k in x
        ensures Same(x[k], y[k]) <==> p[k] == q[k]
      {
        SameIsPlain(x[k], y[k]);
      }
      if Same(Obj(x), Obj(y)) { assert p == q; }
      if p == q { assert forall k :: k in x ==> p[k] == q[k]; }
    }
  }

  ghost predicate NoTruthValues(j: Json)
    decreases j
  {
    match j
    case Bool(_) => false
    case Arr(items) => forall i :: 0 <= i < |items| ==> NoTruthValues(items[i])
    case Obj(fields) => forall k :: k in fields ==> NoTruthValues(fields[k])
    case _ => true
  }

  lemma {:induction false} PlainIsItself(j: Json)
    requires NoTruthValues(j)
    ensures Plain(j) == j
    decreases j
  {
    match j
    case Arr(items) =>
      forall i | 0 <= i < |items| ensures Plain(items[i]) == items[i] { PlainIsItself(items[i]); }
      assert Plain(j).items == items;
    case Obj(fields) =>
      forall k | k in fields ensures Plain(fields[k]) == fields[k] { PlainIsItself(fields[k]); }
      assert Plain(j).fields == fields;
    case _ =>
  }

  /** On values without truth values the comparison is equality. */
  lemma SameIsEquality(a: Json, b: Json)
    requires NoTruthValues(a) && NoTruthValues(b)
    ensures Same(a, b) <==> a == b
  {
    hide Same, Plain, NoTruthValues;
    SameIsPlain(a, b);
    PlainIsItself(a);
    PlainIsItself(b);
  }

  lemma {:induction false} SameIsReflexive(j: Json)
    ensures Same(j, j)
    decreases j
  {
    match j
    case Arr(items) =>
      forall i | 0 <= i < |items| ensures Same(items[i], items[i]) { SameIsReflexive(items[i]); }
    case Obj(fields) =>
      forall k | k in fields ensures Same(fields[k], fields[k]) { SameIsReflexive(fields[k]); }
    case _ =>
  }
}
