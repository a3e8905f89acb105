/** The shape limits every JSON document must meet before it is interpreted: an explicit
    work stack in the code, a recursive definition as its meaning. */
module JsonShape {
  import opened Bytes
  import opened Sums

  datatype Json =
    | Scalar
    | Text(value: seq<Byte>)
    | Array(items: seq<Json>)
    | Object(fields: seq<Field>)

  datatype Field = Field(key: seq<Byte>, value: Json)

  datatype Limits = Limits(nodes: nat, depth: nat, arrayEntries: nat, objectEntries: nat,
                           stringBytes: nat, totalStringBytes: nat)

  // ---------------------------------------------------------------------
  // The recursive definition

  function Children(v: Json): (c: seq<Json>)
    ensures forall i :: 0 <= i < |c| ==> c[i] < v
  {
    match v
    case Array(items) => items
    case Object(fields) => seq(|fields|, i requires 0 <= i < |fields| => fields[i].value)
    case _ => []
  }

  /** Bytes of the node's own strings: its text, or its keys. */
  function OwnBytes(v: Json): nat {
    match v
    case Text(value) => |value|
    case Object(fields) => KeyBytes(fields)
    case _ => 0
  }

  function KeyBytes(fields: seq<Field>): nat {
    Sum(KeyLength, fields)
  }

  function KeyLength(f: Field): nat { |f.key| }

  /** The node's own sizes are within limits. */
  predicate OwnSizes(v: Json, limits: Limits) {
    match v
    case Scalar => true
    case Text(value) => |value| <= limits.stringBytes
    case Array(items) => |items| <= limits.arrayEntries
    case Object(fields) =>
      && |fields| <= limits.objectEntries
      && forall i :: 0 <= i < |fields| ==> |fields[i].key| <= limits.stringBytes
  }

  function Nodes(v: Json): nat
    decreases v, 1
  {
    1 + NodesOf(v, Children(v))
  }

  function NodesOf(v: Json, c: seq<Json>): nat
    requires forall i :: 0 <= i < |c| ==> c[i] < v
    decreases v, 0, |c|
  {
    if c == [] then 0 else Nodes(c[0]) + NodesOf(v, c[1..])
  }

  function StringBytes(v: Json): nat
    decreases v, 1
  {
    OwnBytes(v) + StringBytesOf(v, Children(v))
  }

  function StringBytesOf(v: Json, c: seq<Json>): nat
    requires forall i :: 0 <= i < |c| ==> c[i] < v
    decreases v, 0, |c|
  {
    if c == [] then 0 else StringBytes(c[0]) + StringBytesOf(v, c[1..])
  }

  /** Every node lies within the depth limit when `v` itself is at `depth`. */
  predicate Shallow(v: Json, depth: nat, limits: Limits)
    decreases v
  {
    && depth <= limits.depth
    && forall i :: 0 <= i < |Children(v)| ==> Shallow(Children(v)[i], depth + 1, limits)
  }

  predicate Sized(v: Json, limits: Limits)
    decreases v
  {
    && OwnSizes(v, limits)
    && forall i :: 0 <= i < |Children(v)| ==> Sized(Children(v)[i], limits)
  }

  /** What the limits mean. */
  predicate Accepts(v: Json, limits: Limits) {
    && Nodes(v) <= limits.nodes
    && Shallow(v, 0, limits)
    && Sized(v, limits)
    && StringBytes(v) <= limits.totalStringBytes
  }

  // ---------------------------------------------------------------------
  // What the definition says of each kind of value

  function ValueNodes(f: Field): nat { Nodes(f.value) }

  function ValueBytes(f: Field): nat { |f.key| + StringBytes(f.value) }

  lemma {:induction false} ItemTotals(v: Json, c: seq<Json>)
    requires forall i :: 0 <= i < |c| ==> c[i] < v
    ensures NodesOf(v, c) == Sum(Nodes, c) && StringBytesOf(v, c) == Sum(StringBytes, c)
    decreases |c|
  {
    if c != [] { ItemTotals(v, c[1..]); }
  }

  lemma {:induction false} FieldTotals(v: Json, c: seq<Json>, fields: seq<Field>)
    requires forall i :: 0 <= i < |c| ==> c[i] < v
    requires |c| == |fields| && forall i :: 0 <= i < |c| ==> c[i] == fields[i].value
    ensures NodesOf(v, c) == Sum(ValueNodes, fields)
    ensures KeyBytes(fields) + StringBytesOf(v, c) == Sum(ValueBytes, fields)
    decreases |c|
  {
    if c != [] { FieldTotals(v, c[1..], fields[1..]); }
  }

  /** A value counts itself and everything in it, and adds up its texts and its keys. */
  lemma TotalsMean(v: Json)
    ensures match v
            case Scalar => Nodes(v) == 1 && StringBytes(v) == 0
            case Text(value) => Nodes(v) == 1 && StringBytes(v) == |value|
            case Array(items) => Nodes(v) == 1 + Sum(Nodes, items) && StringBytes(v) == Sum(StringBytes, items)
            case Object(fields) => Nodes(v) == 1 + Sum(ValueNodes, fields) && StringBytes(v) == Sum(ValueBytes, fields)
  {
    match v
    case Array(items) => ItemTotals(v, items);
    case Object(fields) => FieldTotals(v, Children(v), fields);
    case _ =>
  }

  /** `sub` lies in `v`, nested `k` levels deep. */
  ghost predicate Within(v: Json, sub: Json, k: nat)
    decreases v
  {
    match v
    case Array(items) => if k == 0 then sub == v else exists i :: 0 <= i < |items| && Within(items[i], sub, k - 1)
    case Object(fields) =>
      if k == 0 then sub == v else exists i :: 0 <= i < |fields| && Within(fields[i].value, sub, k - 1)
    case _ => k == 0 && sub == v
  }

  lemma OneLevelDown(v: Json, sub: Json, k: nat)
    ensures Within(v, sub, k + 1) <==> exists i :: 0 <= i < |Children(v)| && Within(Children(v)[i], sub, k)
    ensures Within(v, sub, 0) <==> sub == v
  {
    var c := Children(v);
    if Within(v, sub, k + 1) {
      if v.Array? {
        var i :| 0 <= i < |v.items| && Within(v.items[i], sub, k + 1 - 1);
        assert Within(c[i], sub, k);
      } else {
        var i :| 0 <= i < |v.fields| && Within(v.fields[i].value, sub, k + 1 - 1);
        assert Within(c[i], sub, k);
      }
    }
    if i :| 0 <= i < |c| && Within(c[i], sub, k) {
      assert k + 1 - 1 == k && (v.Array? ==> v.items[i] == c[i]) && (v.Object? ==> v.fields[i].value == c[i]);
    }
  }

  lemma {:induction false} WithinIsShallow(v: Json, depth: nat, limits: Limits, sub: Json, k: nat)
    requires Within(v, sub, k) && Shallow(v, depth, limits) && Sized(v, limits)
    ensures depth + k <= limits.depth && OwnSizes(sub, limits)
    decreases v
  {
    if k > 0 {
      OneLevelDown(v, sub, k - 1);
      var i :| 0 <= i < |Children(v)| && Within(Children(v)[i], sub, k - 1);
      WithinIsShallow(Children(v)[i], depth + 1, limits, sub, k - 1);
    } else {
      OneLevelDown(v, sub, 0);
    }
  }

  lemma {:induction false} ShallowIfWithin(v: Json, depth: nat, limits: Limits)
    requires forall sub, k: nat :: Within(v, sub, k) ==> depth + k <= limits.depth && OwnSizes(sub, limits)
    ensures Shallow(v, depth, limits) && Sized(v, limits)
    decreases v
  {
    OneLevelDown(v, v, 0);
    forall i | 0 <= i < |Children(v)|
      ensures Shallow(Children(v)[i], depth + 1, limits) && Sized(Children(v)[i], limits)
    {
      forall sub, k: nat | Within(Children(v)[i], sub, k)
        ensures depth + 1 + k <= limits.depth && OwnSizes(sub, limits)
      {
        OneLevelDown(v, sub, k);
      }
      ShallowIfWithin(Children(v)[i], depth + 1, limits);
    }
  }

  /** Every value in the document, at its level of nesting, is within the limits. */
  ghost predicate AllWithin(v: Json, limits: Limits) {
    forall sub, k: nat :: Within(v, sub, k) ==> k <= limits.depth && OwnSizes(sub, limits)
  }

  /** The limits on single values hold exactly when every value in the document meets them. */
  lemma LimitsMean(v: Json, limits: Limits)
    ensures Shallow(v, 0, limits) && Sized(v, limits) <==> AllWithin(v, limits)
  {
    if Shallow(v, 0, limits) && Sized(v, limits) {
      forall sub, k: nat | Within(v, sub, k) ensures k <= limits.depth && OwnSizes(sub, limits) {
        WithinIsShallow(v, 0, limits, sub, k);
      }
      assert AllWithin(v, limits);
    }
    if AllWithin(v, limits) {
      forall sub, k: nat | Within(v, sub, k) ensures 0 + k <= limits.depth && OwnSizes(sub, limits) { }
      ShallowIfWithin(v, 0, limits);
    }
  }

  // ---------------------------------------------------------------------
  // Totals over the work stack

  datatype Item = Item(node: Json, depth: nat)

  function ItemNodes(x: Item): nat { Nodes(x.node) }

  function ItemBytes(x: Item): nat { StringBytes(x.node) }

  /** The children of a node as work items. */
  function ChildItems(x: Item): (c: seq<Item>)
    ensures |c| == |Children(x.node)|
    ensures forall i :: 0 <= i < |c| ==> c[i] == Item(Children(x.node)[i], x.depth + 1)
  {
    seq(|Children(x.node)|, i requires 0 <= i < |Children(x.node)| => Item(Children(x.node)[i], x.depth + 1))
  }

  lemma {:induction false} ChildSums(v: Json, c: seq<Json>, items: seq<Item>)
    requires forall i :: 0 <= i < |c| ==> c[i] < v
    requires |items| == |c| && forall i :: 0 <= i < |c| ==> items[i].node == c[i]
    ensures NodesOf(v, c) == Sum(ItemNodes, items) && StringBytesOf(v, c) == Sum(ItemBytes, items)
    decreases |c|
  {
    if c != [] { ChildSums(v, c[1..], items[1..]); }
  }

  /** What is left to check, once the counters stand at `nodes` and `bytes`. */
  ghost predicate Pending(good: Item -> bool, stack: seq<Item>, nodes: nat, bytes: nat, limits: Limits) {
    && nodes + Sum(ItemNodes, stack) <= limits.nodes
    && bytes + Sum(ItemBytes, stack) <= limits.totalStringBytes
    && Every(good, stack)
  }

  predicate Good(limits: Limits, x: Item) {
    Shallow(x.node, x.depth, limits) && Sized(x.node, limits)
  }

  lemma GoodItem(good: Item -> bool, x: Item, limits: Limits)
    requires forall y :: good(y) <==> Good(limits, y)
    requires x.depth <= limits.depth && OwnSizes(x.node, limits)
    ensures good(x) <==> Every(good, ChildItems(x))
  {
    var c := Children(x.node);
    forall i | 0 <= i < |c|
      ensures good(ChildItems(x)[i]) <==> Shallow(c[i], x.depth + 1, limits) && Sized(c[i], limits)
    {
      assert ChildItems(x)[i] == Item(c[i], x.depth + 1);
    }
  }

  lemma EveryStep(good: Item -> bool, rest: seq<Item>, x: Item, pushed: seq<Item>, limits: Limits)
    requires forall y :: good(y) <==> Good(limits, y)
    requires Reordering(ChildItems(x), pushed)
    requires x.depth <= limits.depth && OwnSizes(x.node, limits)
    ensures Every(good, rest + [x]) <==> Every(good, rest + pushed)
  {
    GoodItem(good, x, limits);
    EveryIgnoresOrder(good, ChildItems(x), pushed);
    EveryAppend(good, rest, [x]);
    EveryAppend(good, rest, pushed);
    assert [x][0] == x;
    assert Every(good, [x]) <==> good(x);
  }

  /** A node counts for itself and its children. */
  lemma NodeStep(rest: seq<Item>, x: Item, pushed: seq<Item>)
    requires Reordering(ChildItems(x), pushed)
    ensures Sum(ItemNodes, rest + [x]) == Sum(ItemNodes, rest + pushed) + 1
  {
    ChildSums(x.node, Children(x.node), ChildItems(x));
    StackSums(ItemNodes, rest, x, pushed);
  }

  lemma ByteStep(rest: seq<Item>, x: Item, pushed: seq<Item>)
    requires Reordering(ChildItems(x), pushed)
    ensures Sum(ItemBytes, rest + [x]) == Sum(ItemBytes, rest + pushed) + OwnBytes(x.node)
  {
    ChildSums(x.node, Children(x.node), ChildItems(x));
    StackSums(ItemBytes, rest, x, pushed);
  }

  /** The children of a popped node, in any order, in place of the node. */
  lemma PendingStep(good: Item -> bool, rest: seq<Item>, x: Item, pushed: seq<Item>, nodes: nat, bytes: nat,
                    limits: Limits)
    requires forall y :: good(y) <==> Good(limits, y)
    requires Reordering(ChildItems(x), pushed)
    requires x.depth <= limits.depth && OwnSizes(x.node, limits)
    ensures Pending(good, rest + [x], nodes, bytes, limits) <==>
            Pending(good, rest + pushed, nodes + 1, bytes + OwnBytes(x.node), limits)
    ensures Sum(ItemNodes, rest + pushed) < Sum(ItemNodes, rest + [x])
  {
    EveryStep(good, rest, x, pushed, limits);
    NodeStep(rest, x, pushed);
    ByteStep(rest, x, pushed);
  }

  lemma StackSums(f: Item -> nat, rest: seq<Item>, x: Item, pushed: seq<Item>)
    requires Reordering(ChildItems(x), pushed)
    ensures Sum(f, rest + [x]) == Sum(f, rest) + f(x)
    ensures Sum(f, rest + pushed) == Sum(f, rest) + Sum(f, ChildItems(x))
  {
    SumAppend(f, rest, [x]);
    SumOne(f, x);
    SumAppend(f, rest, pushed);
    SumIgnoresOrder(f, ChildItems(x), pushed);
  }

  /** One string against both string limits. */
  method AddString(length: nat, total: nat, limits: Limits) returns (ok: bool, newTotal: nat)
    ensures newTotal == total + length
    ensures ok <==> length <= limits.stringBytes && total + length <= limits.totalStringBytes
  {
    newTotal := total + length;
    ok := length <= limits.stringBytes && newTotal <= limits.totalStringBytes;
  }

  /** All keys of one object. */
  method AddKeys(fields: seq<Field>, total: nat, limits: Limits) returns (ok: bool, newTotal: nat)
    ensures ok ==> newTotal == total + KeyBytes(fields)
    ensures ok ==> forall i :: 0 <= i < |fields| ==> |fields[i].key| <= limits.stringBytes
    ensures ok && fields != [] ==> newTotal <= limits.totalStringBytes
    ensures !ok ==> (exists i :: 0 <= i < |fields| && |fields[i].key| > limits.stringBytes)
                    || total + KeyBytes(fields) > limits.totalStringBytes
  {
    newTotal := total;
    for i := 0 to |fields|
      invariant newTotal == total + KeyBytes(fields[..i])
      invariant forall j :: 0 <= j < i ==> |fields[j].key| <= limits.stringBytes
      invariant i > 0 ==> newTotal <= limits.totalStringBytes
    {
      assert fields[..i + 1] == fields[..i] + [fields[i]];
      SumAppend(KeyLength, fields[..i], [fields[i]]);
      SumOne(KeyLength, fields[i]);
      ok, newTotal := AddString(|fields[i].key|, newTotal, limits);
      if !ok {
        SumPrefix(KeyLength, fields, i + 1);
        return;
      }
    }
    assert fields[..|fields|] == fields;
    ok := true;
  }

  /** One popped node: its own limits and the byte counter. A refusal is justified by the
      node alone or by the byte total so far. */
  method CheckNode(node: Json, depth: nat, nodes: nat, bytes: nat, limits: Limits) returns (ok: bool, newBytes: nat)
    ensures ok ==> nodes + 1 <= limits.nodes && depth <= limits.depth && OwnSizes(node, limits)
    ensures ok ==> newBytes == bytes + OwnBytes(node)
    ensures ok && OwnBytes(node) > 0 ==> newBytes <= limits.totalStringBytes
    ensures !ok ==> nodes + 1 > limits.nodes || depth > limits.depth || !OwnSizes(node, limits)
                    || bytes + OwnBytes(node) > limits.totalStringBytes
  {
    newBytes := bytes;
    if nodes + 1 > limits.nodes || depth > limits.depth {
      return false, bytes;
    }
    match node {
      case Scalar =>
        ok := true;
      case Text(value) =>
        ok, newBytes := AddString(|value|, bytes, limits);
      case Array(items) =>
        ok := |items| <= limits.arrayEntries;
      case Object(fields) =>
        if |fields| > limits.objectEntries {
          return false, bytes;
        }
        ok, newBytes := AddKeys(fields, bytes, limits);
        if ok && fields == [] { assert KeyBytes(fields) == 0; }
    }
  }

  lemma NotPending(good: Item -> bool, rest: seq<Item>, x: Item, nodes: nat, bytes: nat, limits: Limits)
    requires forall y :: good(y) <==> Good(limits, y)
    requires nodes + 1 > limits.nodes || x.depth > limits.depth || !OwnSizes(x.node, limits)
             || bytes + OwnBytes(x.node) > limits.totalStringBytes
    ensures !Pending(good, rest + [x], nodes, bytes, limits)
  {
    assert (rest + [x])[|rest|] == x;
    SumAppend(ItemNodes, rest, [x]);
    SumOne(ItemNodes, x);
    SumAppend(ItemBytes, rest, [x]);
    SumOne(ItemBytes, x);
  }

  lemma PendingStart(good: Item -> bool, value: Json, limits: Limits)
    requires forall y :: good(y) <==> Good(limits, y)
    ensures Accepts(value, limits) <==> Pending(good, [Item(value, 0)], 0, 0, limits)
  {
    var stack := [Item(value, 0)];
    SumOne(ItemNodes, stack[0]);
    SumOne(ItemBytes, stack[0]);
  }

  /** The work-stack loop accepts exactly the documents that the recursive definition
      accepts, in whatever `order` the children of a node are pushed. */
  method ValidateShape(value: Json, limits: Limits, order: seq<Item> -> seq<Item>) returns (ok: bool)
    requires forall children :: Reordering(children, order(children))
    ensures ok <==> Accepts(value, limits)
  {
    ghost var good := (x: Item) => Good(limits, x);
    var nodes: nat, bytes: nat := 0, 0;
    var stack := [Item(value, 0)];
    PendingStart(good, value, limits);
    while stack != []
      invariant Accepts(value, limits) <==> Pending(good, stack, nodes, bytes, limits)
      invariant nodes <= limits.nodes && (bytes > 0 ==> bytes <= limits.totalStringBytes)
      decreases Sum(ItemNodes, stack)
    {
      var item := stack[|stack| - 1];
      var rest := stack[..|stack| - 1];
      assert stack == rest + [item];
      var newBytes;
      ok, newBytes := CheckNode(item.node, item.depth, nodes, bytes, limits);
      if !ok {
        NotPending(good, rest, item, nodes, bytes, limits);
        return false;
      }
      var pushed := order(ChildItems(item));
      PendingStep(good, rest, item, pushed, nodes, bytes, limits);
      nodes, bytes := nodes + 1, newBytes;
      stack := rest + pushed;
    }
    ok := true;
  }
}
