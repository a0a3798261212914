/** Relations between expressions, and the constraint rows made from them. */
module Relations {
  import opened Collections
  import opened Expressions
  import opened LinearForms
  import opened Monoids
  import opened Operators
  import opened Precision
  import opened Ranking
  import opened Sorting
  import opened Strings

  datatype Sense = EqualZero | LessEqualZero | GreaterEqualZero

  /** A constant relation has no terms of its own. */
  datatype Relation = ConstantRelation(value: real, sense: Sense) | TermRelation(form: Linear, sense: Sense)

  predicate Satisfies(value: real, sense: Sense) {
    match sense
    case EqualZero => value == 0.0
    case LessEqualZero => value <= 0.0
    case GreaterEqualZero => value >= 0.0
  }

  ghost predicate Holds(r: Relation, x: int -> real) {
    match r
    case ConstantRelation(value, sense) => Satisfies(value, sense)
    case TermRelation(form, sense) => Satisfies(Eval(form, x), sense)
  }

  /** Both representations state the same about the expression. */
  method MakeRelation(e: Expression, sense: Sense) returns (r: Relation)
    ensures r.sense == sense && forall x: int -> real :: Holds(r, x) <==> Satisfies(Eval(e.Form(), x), sense)
  {
    if e.impl != null {
      r := TermRelation(e.impl.Form(), sense);
    } else {
      r := ConstantRelation(e.constant, sense);
      forall x: int -> real ensures Holds(r, x) <==> Satisfies(Eval(e.Form(), x), sense) {
        EvalConstant(e.Form(), x);
      }
    }
  }

  function Flip(sense: Sense): Sense {
    match sense
    case EqualZero => EqualZero
    case LessEqualZero => GreaterEqualZero
    case GreaterEqualZero => LessEqualZero
  }

  /** The constant that a comparison really uses. */
  function Used(c: real): real {
    if CloseToZero(c) then 0.0 else c
  }

  lemma UsedIsClose(c: real)
    ensures Abs(Used(c) - c) < DEFAULT_TOLERANCE && (c == 0.0 || Abs(c) >= DEFAULT_TOLERANCE ==> Used(c) == c)
  {
    Dropped(c);
  }

  /** expression (==, <=, >=) constant */
  method CompareReal(e: Expression, c: real, sense: Sense) returns (r: Relation)
    ensures forall x: int -> real :: Holds(r, x) <==> Satisfies(Eval(e.Form(), x) - Used(c), sense)
  {
    if CloseToZero(c) {
      r := MakeRelation(e, sense);
    } else {
      var difference := PlusReal(e, -c);
      assert !CloseToZero(-c) by { Dropped(c); Dropped(-c); }
      r := MakeRelation(difference, sense);
    }
  }

  /** constant (==, <=, >=) expression; close to zero the sides change places. */
  method RealCompare(c: real, e: Expression, sense: Sense) returns (r: Relation)
    ensures forall x: int -> real :: Holds(r, x) <==> Satisfies(Used(c) - Eval(e.Form(), x), sense)
  {
    if CloseToZero(c) {
      r := MakeRelation(e, Flip(sense));
    } else {
      var negated := TimesReal(e, -1.0);
      var difference := PlusReal(negated, c);
      r := MakeRelation(difference, sense);
      forall x: int -> real ensures Eval(difference.Form(), x) == c - Eval(e.Form(), x) {
        EvalNegated(e.Form(), x);
      }
    }
  }

  /** expression (==, <=, >=) expression */
  method CompareExpression(e: Expression, f: Expression, sense: Sense) returns (r: Relation)
    ensures forall x: int -> real :: Holds(r, x) <==> Satisfies(Eval(e.Form(), x) - Eval(f.Form(), x), sense)
  {
    var difference := MinusExpression(e, f);
    r := MakeRelation(difference, sense);
    forall x: int -> real ensures Eval(difference.Form(), x) == Eval(e.Form(), x) - Eval(f.Form(), x) {
      EvalNegated(f.Form(), x);
      EvalPlus(e.Form(), Negated(f.Form()), x);
    }
  }

  // Constraint rows

  datatype Row = Row(terms: map<int, real>, rhs: real, sense: Sense, name: string, deleted: bool)

  ghost predicate RowHolds(row: Row, x: int -> real) {
    Satisfies(Dot(row.terms, x) - row.rhs, row.sense)
  }

  function FormOf(r: Relation): Linear {
    match r
    case ConstantRelation(value, _) => Linear(map[], value)
    case TermRelation(form, _) => form
  }

  function RowOf(r: Relation, name: string): Row {
    Row(FormOf(r).terms, -FormOf(r).constant, r.sense, name, false)
  }

  /** A row holds exactly when its relation does. */
  lemma RowIsRelation(r: Relation, name: string, x: int -> real)
    ensures RowHolds(RowOf(r, name), x) <==> Holds(r, x)
  {
    if r.ConstantRelation? { DotEmpty(x); }
  }

  // Ordering by name

  const ByName: ((string, int), (string, int)) -> bool := (p, q) => PairLess(q, p)

  lemma ByNameIsTotal()
    ensures StrictTotal(ByName)
  {
    forall p: (string, int) ensures !ByName(p, p) { LessIrreflexive(p.0); }
    forall p, q | p != q ensures ByName(p, q) || ByName(q, p) { PairTotal(p, q); }
    forall p, q, r | ByName(p, q) && ByName(q, r) ensures ByName(p, r) { PairTransitive(r, q, p); }
  }

  /** The live ids, each once, by name and then by id. */
  ghost predicate SortedIds(ids: seq<nat>, names: seq<string>, live: seq<bool>)
    requires |names| == |live|
  {
    && (forall j | 0 <= j < |ids| :: ids[j] < |names|)
    && (forall i: nat | i < |names| :: i in ids <==> live[i])
    && (forall j, k | 0 <= j < k < |ids| :: PairLess((names[ids[j]], ids[j]), (names[ids[k]], ids[k])))
  }

  method CollectKeys(names: seq<string>, live: seq<bool>) returns (keys: seq<(string, int)>)
    requires |names| == |live|
    ensures forall k | k in keys :: 0 <= k.1 < |names| && live[k.1] && k.0 == names[k.1]
    ensures forall i: nat | i < |names| && live[i] :: (names[i], i) in keys
    ensures forall i, j | 0 <= i < j < |keys| :: keys[i].1 < keys[j].1
  {
    keys := [];
    for i := 0 to |names|
      invariant forall k | k in keys :: 0 <= k.1 < i && live[k.1] && k.0 == names[k.1]
      invariant forall h: nat | h < i && live[h] :: (names[h], h) in keys
      invariant forall h, j | 0 <= h < j < |keys| :: keys[h].1 < keys[j].1
    {
      if live[i] {
        forall h | 0 <= h < |keys| ensures keys[h].1 < i { assert keys[h] in keys; }
        keys := keys + [(names[i], i)];
      }
    }
  }

  ghost predicate PairsAscend(s: seq<(string, int)>) {
    forall i, j | 0 <= i < j < |s| :: PairLess(s[i], s[j])
  }

  /** Distinct pairs stay distinct when they are reordered. */
  lemma SortedStrictly(keys: seq<(string, int)>)
    requires forall i, j | 0 <= i < j < |keys| :: keys[i].1 < keys[j].1
    ensures PairsAscend(SortDescending(ByName, keys))
    ensures forall k :: k in SortDescending(ByName, keys) <==> k in keys
  {
    ByNameIsTotal();
    SortDescendingSorts(ByName, keys);
    var s := SortDescending(ByName, keys);
    forall k ensures k in s <==> k in keys {
      assert k in s <==> k in multiset(s);
      assert k in keys <==> k in multiset(keys);
    }
    forall i, j | 0 <= i < j < |s| ensures PairLess(s[i], s[j]) {
      OnceEach(keys);
      OccursOnce(s, i, j);
      assert !ByName(s[i], s[j]);
      PairTotal(s[i], s[j]);
    }
  }

  lemma {:induction false} OnceEach(keys: seq<(string, int)>)
    requires forall i, j | 0 <= i < j < |keys| :: keys[i].1 < keys[j].1
    ensures forall k | k in keys :: multiset(keys)[k] == 1
    decreases |keys|
  {
    if keys != [] {
      var front, last := keys[..|keys| - 1], keys[|keys| - 1];
      assert keys == front + [last];
      OnceEach(front);
      assert last !in front;
      forall k | k in keys ensures multiset(keys)[k] == 1 {
        if k != last { assert k in front; }
      }
    }
  }

  lemma OccursOnce(s: seq<(string, int)>, i: nat, j: nat)
    requires i < j < |s| && multiset(s)[s[i]] == 1
    ensures s[i] != s[j]
  {
    assert s == s[..i] + [s[i]] + s[i + 1..j] + [s[j]] + s[j + 1..];
  }

  method SortIds(names: seq<string>, live: seq<bool>) returns (ids: seq<nat>)
    requires |names| == |live|
    ensures SortedIds(ids, names, live)
  {
    var keys := CollectKeys(names, live);
    SortedStrictly(keys);
    var sorted := SortDescending(ByName, keys);
    ids := [];
    for i := 0 to |sorted|
      invariant |ids| == i && forall h | 0 <= h < i :: sorted[h].1 == ids[h]
    {
      assert sorted[i] in sorted;
      ids := ids + [sorted[i].1];
    }
    forall h | 0 <= h < |ids| ensures ids[h] < |names| && live[ids[h]] && sorted[h] == (names[ids[h]], ids[h]) {
      assert sorted[h] in sorted;
    }
    forall j, k | 0 <= j < k < |ids| ensures PairLess((names[ids[j]], ids[j]), (names[ids[k]], ids[k])) {
      assert PairLess(sorted[j], sorted[k]);
    }
    forall i: nat | i < |names| && live[i] ensures i in ids {
      var h :| 0 <= h < |sorted| && sorted[h] == (names[i], i);
      assert ids[h] == i;
    }
  }

  // The problem

  ghost predicate Feasible(rows: seq<Row>, x: int -> real) {
    forall i | 0 <= i < |rows| && !rows[i].deleted :: RowHolds(rows[i], x)
  }

  class FastProblemImpl {
    var variableNames: seq<string>
    var constraints: seq<Row>
    /** The relation each row was made from. */
    ghost var relations: seq<Relation>

    ghost predicate Valid()
      reads this
    {
      && |relations| == |constraints|
      && forall i | 0 <= i < |constraints| ::
           constraints[i] == RowOf(relations[i], constraints[i].name).(deleted := constraints[i].deleted)
    }

    constructor ()
      ensures Valid() && constraints == [] && variableNames == []
    {
      variableNames, constraints, relations := [], [], [];
    }

    /** Ids count up; the variables made before keep theirs. */
    method MakeVar(name: string) returns (id: nat)
      requires Valid()
      modifies this`variableNames
      ensures Valid() && id == old(|variableNames|) && variableNames == old(variableNames) + [name]
    {
      id := |variableNames|;
      variableNames := variableNames + [name];
    }

    /** Adds exactly the new relation to what a feasible point must satisfy. */
    method NewConstraint(relation: Relation, name: string) returns (id: nat)
      requires Valid()
      modifies this`constraints, this`relations
      ensures Valid() && id == old(|constraints|) && constraints == old(constraints) + [RowOf(relation, name)]
      ensures relations == old(relations) + [relation]
      ensures forall x: int -> real :: Feasible(constraints, x) <==> old(Feasible(constraints, x)) && Holds(relation, x)
    {
      id := |constraints|;
      ghost var before := constraints;
      var row := RowOf(relation, name);
      constraints := constraints + [row];
      relations := relations + [relation];
      forall x: int -> real ensures Feasible(constraints, x) <==> Feasible(before, x) && Holds(relation, x) {
        RowIsRelation(relation, name, x);
        AppendRow(before, row, x);
      }
    }

    /** Ids stay valid: a deleted row is only marked. */
    method DeleteConstraint(id: nat)
      requires Valid() && id < |constraints|
      modifies this`constraints
      ensures Valid() && constraints == old(constraints)[id := old(constraints[id]).(deleted := true)]
    {
      constraints := constraints[id := constraints[id].(deleted := true)];
    }

    /** Feasible points are those that satisfy every relation not deleted. */
    lemma FeasibleMeans(x: int -> real)
      requires Valid()
      ensures Feasible(constraints, x)
              <==> forall i | 0 <= i < |constraints| && !constraints[i].deleted :: Holds(relations[i], x)
    {
      forall i | 0 <= i < |constraints| ensures RowHolds(constraints[i], x) <==> Holds(relations[i], x) {
        RowIsRelation(relations[i], constraints[i].name, x);
      }
    }

    method BuildSortedVarIds() returns (ids: seq<nat>)
      ensures SortedIds(ids, variableNames, seq(|variableNames|, _ => true))
    {
      ids := SortIds(variableNames, seq(|variableNames|, _ => true));
    }

    method BuildSortedConstrIds() returns (ids: seq<nat>)
      ensures SortedIds(ids, NamesOf(constraints), LiveOf(constraints))
    {
      ids := SortIds(NamesOf(constraints), LiveOf(constraints));
    }
  }

  function NamesOf(rows: seq<Row>): (r: seq<string>)
    ensures |r| == |rows| && forall i | 0 <= i < |rows| :: r[i] == rows[i].name
  {
    seq(|rows|, i requires 0 <= i < |rows| => rows[i].name)
  }

  function LiveOf(rows: seq<Row>): (r: seq<bool>)
    ensures |r| == |rows| && forall i | 0 <= i < |rows| :: r[i] == !rows[i].deleted
  {
    seq(|rows|, i requires 0 <= i < |rows| => !rows[i].deleted)
  }

  lemma AppendRow(rows: seq<Row>, row: Row, x: int -> real)
    requires !row.deleted
    ensures Feasible(rows + [row], x) <==> Feasible(rows, x) && RowHolds(row, x)
  {
    var all := rows + [row];
    if Feasible(all, x) {
      assert all[|rows|] == row;
      forall i | 0 <= i < |rows| && !rows[i].deleted ensures RowHolds(rows[i], x) { assert all[i] == rows[i]; }
    }
  }

  // The order does not depend on the order of insertion

  ghost function Picked<T>(items: seq<T>, ids: seq<nat>): seq<T>
    requires forall j | 0 <= j < |ids| :: ids[j] < |items|
  {
    seq(|ids|, j requires 0 <= j < |ids| => items[ids[j]])
  }

  ghost function LiveIds(live: seq<bool>): seq<nat> {
    if live == [] then []
    else LiveIds(live[..|live| - 1]) + (if live[|live| - 1] then [|live| - 1] else [])
  }

  lemma {:induction false} LiveIdsMeaning(live: seq<bool>)
    ensures NoRepeats(LiveIds(live)) && forall i: nat :: i in LiveIds(live) <==> i < |live| && live[i]
  {
    if live != [] {
      var front := LiveIds(live[..|live| - 1]);
      LiveIdsMeaning(live[..|live| - 1]);
      assert |live| - 1 !in front;
      forall j | 0 <= j < |front| ensures front[j] != |live| - 1 { assert front[j] in front; }
    }
  }

  /** The live items, as many times as they occur. */
  ghost function LiveItems<T>(items: seq<T>, live: seq<bool>): multiset<T>
    requires |items| == |live|
  {
    if items == [] then multiset{}
    else
      var n := |items| - 1;
      LiveItems(items[..n], live[..n]) + (if live[n] then multiset{items[n]} else multiset{})
  }

  lemma {:induction false} LiveIdsPick<T>(items: seq<T>, live: seq<bool>)
    requires |items| == |live|
    ensures forall j | 0 <= j < |LiveIds(live)| :: LiveIds(live)[j] < |items|
    ensures multiset(Picked(items, LiveIds(live))) == LiveItems(items, live)
  {
    if items != [] {
      var n := |items| - 1;
      LiveIdsPick(items[..n], live[..n]);
      var front := LiveIds(live[..n]);
      assert Picked(items, front) == Picked(items[..n], front);
      if live[n] {
        assert Picked(items, LiveIds(live)) == Picked(items, front) + [items[n]];
      } else {
        assert LiveIds(live) == front;
      }
    }
  }

  lemma SameMultiset(a: seq<nat>, b: seq<nat>)
    requires NoRepeats(a) && NoRepeats(b) && forall i: nat :: i in a <==> i in b
    ensures multiset(a) == multiset(b)
  {
    RepeatsCount(a);
    RepeatsCount(b);
    forall i: nat ensures multiset(a)[i] == multiset(b)[i] {
      assert i in multiset(a) <==> i in a;
      assert i in multiset(b) <==> i in b;
    }
  }

  lemma IdsDiffer(ids: seq<nat>, names: seq<string>, live: seq<bool>)
    requires |names| == |live| && SortedIds(ids, names, live)
    ensures NoRepeats(ids) && forall i: nat :: i in ids <==> i < |live| && live[i]
  {
    forall j, k | 0 <= j < k < |ids| ensures ids[j] != ids[k] {
      LessIrreflexive(names[ids[j]]);
      assert PairLess((names[ids[j]], ids[j]), (names[ids[k]], ids[k]));
    }
  }

  /** Listing by sorted ids lists the live items. */
  lemma PickedItems<T>(items: seq<T>, names: seq<string>, live: seq<bool>, ids: seq<nat>)
    requires |items| == |names| == |live| && SortedIds(ids, names, live)
    ensures forall j | 0 <= j < |ids| :: ids[j] < |items|
    ensures multiset(Picked(items, ids)) == LiveItems(items, live)
  {
    IdsDiffer(ids, names, live);
    LiveIdsMeaning(live);
    LiveIdsPick(items, live);
    SameMultiset(ids, LiveIds(live));
    if ids != [] {
      var at := (i: nat) => items[if i < |items| then i else ids[0]];
      MappedPermuted(at, ids, LiveIds(live));
      assert Picked(items, ids) == Mapped(at, ids) && Picked(items, LiveIds(live)) == Mapped(at, LiveIds(live));
    } else {
      assert |multiset(LiveIds(live))| == 0;
    }
  }

  ghost predicate NamesAscend<T>(items: seq<T>, name: T -> string) {
    forall i, j | 0 <= i < j < |items| :: !StringLess(name(items[j]), name(items[i]))
  }

  /** Items with the same name are the same. */
  ghost predicate NamesDecide<T>(items: seq<T>, name: T -> string) {
    forall x, y | x in items && y in items && name(x) == name(y) :: x == y
  }

  /** Items in ascending order of name are determined by their multiset when their
      names tell them apart. */
  lemma {:induction false} AscendingUnique<T>(a: seq<T>, b: seq<T>, name: T -> string)
    requires multiset(a) == multiset(b) && NamesAscend(a, name) && NamesAscend(b, name) && NamesDecide(a, name)
    ensures a == b
  {
    SameSize(a, b);
    if a != [] {
      FirstSame(a, b, name);
      SameTails(a, b);
      TailAscends(a, name);
      TailAscends(b, name);
      AscendingUnique(a[1..], b[1..], name);
      assert a == [a[0]] + a[1..] && b == [b[0]] + b[1..];
    }
  }

  lemma SameSize<T>(a: seq<T>, b: seq<T>)
    requires multiset(a) == multiset(b)
    ensures |a| == |b|
  {
    assert |a| == |multiset(a)| && |b| == |multiset(b)|;
  }

  lemma SameTails<T>(a: seq<T>, b: seq<T>)
    requires multiset(a) == multiset(b) && a != [] && b != [] && a[0] == b[0]
    ensures multiset(a[1..]) == multiset(b[1..])
  {
    CancelHead(a, b, 0);
    assert b[..0] + b[1..] == b[1..];
  }

  lemma TailAscends<T>(a: seq<T>, name: T -> string)
    requires a != [] && NamesAscend(a, name)
    ensures NamesAscend(a[1..], name)
  {
    forall i, j | 0 <= i < j < |a[1..]| ensures !StringLess(name(a[1..][j]), name(a[1..][i])) {
      assert !StringLess(name(a[j + 1]), name(a[i + 1]));
    }
  }

  lemma FirstSame<T>(a: seq<T>, b: seq<T>, name: T -> string)
    requires multiset(a) == multiset(b) && a != [] && b != []
    requires NamesAscend(a, name) && NamesAscend(b, name) && NamesDecide(a, name)
    ensures a[0] == b[0]
  {
    assert a[0] in multiset(b) && b[0] in multiset(a);
    var i :| 0 <= i < |b| && b[i] == a[0];
    var j :| 0 <= j < |a| && a[j] == b[0];
    if name(a[0]) != name(b[0]) {
      LessTotal(name(a[0]), name(b[0]));
    }
  }

  lemma PickedAscend<T>(items: seq<T>, names: seq<string>, live: seq<bool>, ids: seq<nat>, name: T -> string)
    requires |items| == |names| == |live| && SortedIds(ids, names, live)
    requires forall i | 0 <= i < |items| :: name(items[i]) == names[i]
    ensures forall j | 0 <= j < |ids| :: ids[j] < |items|
    ensures NamesAscend(Picked(items, ids), name)
  {
    IdsDiffer(ids, names, live);
    forall j, k | 0 <= j < k < |ids| ensures !StringLess(names[ids[k]], names[ids[j]]) {
      assert PairLess((names[ids[j]], ids[j]), (names[ids[k]], ids[k]));
      LessIrreflexive(names[ids[j]]);
      if StringLess(names[ids[k]], names[ids[j]]) && StringLess(names[ids[j]], names[ids[k]]) {
        LessTransitive(names[ids[j]], names[ids[k]], names[ids[j]]);
      }
    }
  }

  /** Variables made in any order are listed by the same names in the same order. */
  lemma VariableOrder(a: seq<string>, b: seq<string>, idsA: seq<nat>, idsB: seq<nat>)
    requires multiset(a) == multiset(b)
    requires SortedIds(idsA, a, seq(|a|, _ => true)) && SortedIds(idsB, b, seq(|b|, _ => true))
    ensures (forall j | 0 <= j < |idsA| :: idsA[j] < |a|) && (forall j | 0 <= j < |idsB| :: idsB[j] < |b|)
    ensures Picked(a, idsA) == Picked(b, idsB)
  {
    var itself := (x: string) => x;
    PickedItems(a, a, seq(|a|, _ => true), idsA);
    PickedItems(b, b, seq(|b|, _ => true), idsB);
    AllLive(a);
    AllLive(b);
    PickedAscend(a, a, seq(|a|, _ => true), idsA, itself);
    PickedAscend(b, b, seq(|b|, _ => true), idsB, itself);
    AscendingUnique(Picked(a, idsA), Picked(b, idsB), itself);
  }

  lemma {:induction false} AllLive<T>(items: seq<T>)
    ensures LiveItems(items, seq(|items|, _ => true)) == multiset(items)
  {
    if items != [] {
      var n := |items| - 1;
      AllLive(items[..n]);
      assert seq(|items|, _ => true)[..n] == seq(n, _ => true);
      assert items == items[..n] + [items[n]];
    }
  }

  // Rows

  ghost function LiveRows(rows: seq<Row>): multiset<Row> {
    LiveItems(rows, LiveOf(rows))
  }

  lemma {:induction false} LiveRowsCount(rows: seq<Row>, row: Row)
    ensures LiveRows(rows)[row] == if row.deleted then 0 else multiset(rows)[row]
  {
    if rows != [] {
      var n := |rows| - 1;
      LiveRowsCount(rows[..n], row);
      assert LiveOf(rows)[..n] == LiveOf(rows[..n]);
      assert rows == rows[..n] + [rows[n]];
    }
  }

  /** The ids list the live rows of a problem in the order of their names. */
  ghost predicate ListsRows(ids: seq<nat>, rows: seq<Row>) {
    SortedIds(ids, NamesOf(rows), LiveOf(rows))
  }

  ghost predicate SameListing(a: seq<Row>, idsA: seq<nat>, b: seq<Row>, idsB: seq<nat>)
    requires ListsRows(idsA, a) && ListsRows(idsB, b)
  {
    PickedItems(a, NamesOf(a), LiveOf(a), idsA);
    PickedItems(b, NamesOf(b), LiveOf(b), idsB);
    Picked(a, idsA) == Picked(b, idsB)
  }

  /** Live rows with the same name are the same. */
  ghost predicate LiveNamesDecide(rows: seq<Row>) {
    forall x, y | x in rows && y in rows && !x.deleted && !y.deleted && x.name == y.name :: x == y
  }

  lemma DecidedOrder(a: seq<Row>, b: seq<Row>, idsA: seq<nat>, idsB: seq<nat>)
    requires ListsRows(idsA, a) && ListsRows(idsB, b) && LiveRows(a) == LiveRows(b) && LiveNamesDecide(a)
    ensures SameListing(a, idsA, b, idsB)
  {
    var name := (row: Row) => row.name;
    PickedItems(a, NamesOf(a), LiveOf(a), idsA);
    PickedItems(b, NamesOf(b), LiveOf(b), idsB);
    PickedAscend(a, NamesOf(a), LiveOf(a), idsA, name);
    PickedAscend(b, NamesOf(b), LiveOf(b), idsB, name);
    var picked := Picked(a, idsA);
    forall x | x in picked ensures x in a && !x.deleted {
      assert x in multiset(picked);
      LiveRowsCount(a, x);
      assert x in multiset(a);
    }
    AscendingUnique(picked, Picked(b, idsB), name);
  }

  /** Two rows exchanged. */
  function Swapped(rows: seq<Row>, i: nat, j: nat): seq<Row>
    requires i < |rows| && j < |rows|
  {
    rows[i := rows[j]][j := rows[i]]
  }

  lemma SwappedRows(rows: seq<Row>, i: nat, j: nat)
    requires i < j < |rows|
    ensures multiset(Swapped(rows, i, j)) == multiset(rows)
  {
    var a, b, c := rows[..i], rows[i + 1..j], rows[j + 1..];
    assert rows == a + [rows[i]] + b + [rows[j]] + c;
    assert Swapped(rows, i, j) == a + [rows[j]] + b + [rows[i]] + c;
  }

  lemma UndecidedOrder(a: seq<Row>, ids: seq<nat>, i: nat, j: nat)
    requires ListsRows(ids, a) && i < j < |a| && !a[i].deleted && !a[j].deleted && a[i].name == a[j].name && a[i] != a[j]
    ensures var b := Swapped(a, i, j); ListsRows(ids, b) && LiveRows(b) == LiveRows(a) && !SameListing(a, ids, b, ids)
  {
    var b := Swapped(a, i, j);
    assert NamesOf(b) == NamesOf(a) && LiveOf(b) == LiveOf(a);
    SwappedRows(a, i, j);
    forall row ensures LiveRows(b)[row] == LiveRows(a)[row] {
      LiveRowsCount(a, row);
      LiveRowsCount(b, row);
    }
    IdsDiffer(ids, NamesOf(a), LiveOf(a));
    var h :| 0 <= h < |ids| && ids[h] == i;
    PickedItems(a, NamesOf(a), LiveOf(a), ids);
    assert Picked(a, ids)[h] == a[i] && Picked(b, ids)[h] == a[j];
  }

  /** Every problem with the same live rows, added in any order and with any other
      rows deleted, lists them in the same order exactly when live rows with the
      same name are the same. */
  lemma OrderIsDeterministic(a: seq<Row>, ids: seq<nat>)
    requires ListsRows(ids, a)
    ensures (forall b, idsB | LiveRows(b) == LiveRows(a) && ListsRows(idsB, b) :: SameListing(a, ids, b, idsB))
            <==> LiveNamesDecide(a)
  {
    if LiveNamesDecide(a) {
      forall b, idsB | LiveRows(b) == LiveRows(a) && ListsRows(idsB, b) ensures SameListing(a, ids, b, idsB) {
        DecidedOrder(a, b, ids, idsB);
      }
    } else {
      var x, y :| x in a && y in a && !x.deleted && !y.deleted && x.name == y.name && x != y;
      var i :| 0 <= i < |a| && a[i] == x;
      var j :| 0 <= j < |a| && a[j] == y;
      if i < j { UndecidedOrder(a, ids, i, j); } else { UndecidedOrder(a, ids, j, i); }
    }
  }
}
