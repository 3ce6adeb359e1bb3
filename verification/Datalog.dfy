/** Facts, the rule shapes the benchmark programs use, and least models. */
module Datalog {
  datatype Fact<T> = Fact(s: T, p: T, o: T)

  datatype Rule<T> =
    | Copy(source: T, to: T)                   // (x source y) gives (x to y)
    | Compose(first: T, second: T, to: T)      // (x first y), (y second z) give (x to z)
    | Mark(source: T, property: T, value: T)   // (x source y) gives (x property value)
    | Relabel(property: T, old_: T, new_: T)   // (x property old) gives (x property new)

  /** Applying the rule to facts of m gives facts of m. */
  ghost predicate Obeys<T(!new)>(rule: Rule<T>, m: set<Fact<T>>) {
    match rule
    case Copy(source, to) =>
      forall x, y :: Fact(x, source, y) in m ==> Fact(x, to, y) in m
    case Compose(first, second, to) =>
      forall x, y, z :: Fact(x, first, y) in m && Fact(y, second, z) in m ==> Fact(x, to, z) in m
    case Mark(source, property, value) =>
      forall x, y :: Fact(x, source, y) in m ==> Fact(x, property, value) in m
    case Relabel(property, old_, new_) =>
      forall x :: Fact(x, property, old_) in m ==> Fact(x, property, new_) in m
  }

  ghost predicate Model<T(!new)>(rules: seq<Rule<T>>, rows: seq<Fact<T>>, m: set<Fact<T>>) {
    && (forall row :: row in rows ==> row in m)
    && forall i :: 0 <= i < |rules| ==> Obeys(rules[i], m)
  }

  /** The least set of facts that holds the rows and obeys every rule. */
  ghost predicate LeastModel<T(!new)>(rules: seq<Rule<T>>, rows: seq<Fact<T>>, m: set<Fact<T>>) {
    Model(rules, rows, m) && forall k :: Model(rules, rows, k) ==> m <= k
  }

  lemma LeastModelIsUnique<T(!new)>(rules: seq<Rule<T>>, rows: seq<Fact<T>>, m: set<Fact<T>>, k: set<Fact<T>>)
    requires LeastModel(rules, rows, m) && LeastModel(rules, rows, k)
    ensures m == k
  {
    assert m <= k && k <= m;
  }
}
