/** Queries: an optional type name, and a list of conditions on fields of the tree. */
module Query {
  import opened Bytes
  import opened Json

  datatype Option<T> = None | Some(value: T)

  datatype Cmp = GT | GE | LT | LE | IN | EQ

  /**
   A condition on one node. `stray` stands for what comparing a number or a flag against a
   string node gives: the source then compares the bytes of an address. String and float
   comparisons are left open as any predicate on the node.
   */
  datatype Test =
    | IntTest(op: Cmp, int32: int, stray: Json -> bool)
    | BoolTest(op: Cmp, flag: byte, stray: Json -> bool)
    | OtherTest(holds: Json -> bool)

  datatype QueryItem = QueryItem(path: seq<seq<byte>>, test: Test)

  /** The int32_t in the low four bytes of a value union. */
  function Int32Of(val: seq<byte>): (v: int)
    ensures -0x8000_0000 <= v < 0x8000_0000
  {
    if |val| < 4 then 0 else
      FromLeBound(val[..4]);
      assert Pow256(4) == 0x1_0000_0000 by { assert Pow256(2) == 65536; }
      var u := FromLe(val[..4]);
      if u < 0x8000_0000 then u else u - 0x1_0000_0000
  }

  /** json_son_by_key: the first son with that key. */
  function ByKey(sons: Json, key: seq<byte>): Option<Json> {
    match sons
    case Nil => None
    case Node(k, ty, val, bro, son) => if StrEq(k, key) then Some(sons) else ByKey(bro, key)
  }

  /** Follows a path of keys down from a node. */
  function Drill(j: Json, path: seq<seq<byte>>): Option<Json>
    requires j.Node?
    ensures Drill(j, path).Some? ==> Drill(j, path).value.Node?
    decreases |path|
  {
    if path == [] then Some(j) else
      ByKeyNode(j.son, path[0]);
      match ByKey(j.son, path[0])
      case None => None
      case Some(s) => Drill(s, path[1..])
  }

  lemma {:induction false} ByKeyNode(sons: Json, key: seq<byte>)
    ensures ByKey(sons, key).Some? ==> ByKey(sons, key).value.Node? && StrEq(ByKey(sons, key).value.key, key)
  {
    if sons.Node? {
      ByKeyNode(sons.bro, key);
    }
  }

  /** The nodes of a chain of brothers, each with what follows it. */
  function Chain(sons: Json): seq<Json> {
    match sons
    case Nil => []
    case Node(key, ty, val, bro, son) => [sons] + Chain(bro)
  }

  /** A chain starts at its first node and ends where the brother links end. */
  lemma {:induction false} ChainEnds(sons: Json)
    ensures sons.Nil? <==> Chain(sons) == []
    ensures sons.Node? ==> Chain(sons)[0] == sons && Chain(sons)[|Chain(sons)| - 1].Node? && Chain(sons)[|Chain(sons)| - 1].bro == Nil
  {
    if sons.Node? {
      ChainEnds(sons.bro);
    }
  }

  /** Behind each node of a chain comes the one its brother link leads to. */
  lemma {:induction false} ChainLinks(sons: Json, i: nat)
    requires i + 1 < |Chain(sons)|
    ensures Chain(sons)[i].Node? && Chain(sons)[i + 1] == Chain(sons)[i].bro
  {
    assert Chain(sons) == [sons] + Chain(sons.bro);
    if i > 0 {
      ChainLinks(sons.bro, i - 1);
    } else {
      ChainEnds(sons.bro);
    }
  }

  /** The nodes of a chain, each cut off from those behind it, are the brothers in order. */
  lemma {:induction false} ChainBrothers(sons: Json)
    ensures |Chain(sons)| == |Brothers(sons)|
    ensures forall i :: 0 <= i < |Chain(sons)| ==> Chain(sons)[i].Node? && Brothers(sons)[i] == Chain(sons)[i].(bro := Nil)
  {
    if sons.Node? {
      ChainBrothers(sons.bro);
      var c, rest := Chain(sons), Chain(sons.bro);
      assert c == [sons] + rest;
      assert Brothers(sons) == [sons.(bro := Nil)] + Brothers(sons.bro);
      forall i | 0 <= i < |c| ensures c[i].Node? && Brothers(sons)[i] == c[i].(bro := Nil) {
        if i > 0 {
          assert c[i] == rest[i - 1];
        }
      }
    }
  }

  /** `x` is the first of some brothers with this key. */
  ghost predicate FirstWithKey(c: seq<Json>, key: seq<byte>, x: Json, i: nat) {
    && i < |c| && c[i] == x && x.Node? && StrEq(x.key, key)
    && forall k :: 0 <= k < i ==> c[k].Node? && !StrEq(c[k].key, key)
  }

  lemma FirstShift(j: Json, rest: seq<Json>, key: seq<byte>, x: Json, i: nat)
    requires FirstWithKey(rest, key, x, i) && j.Node? && !StrEq(j.key, key)
    ensures FirstWithKey([j] + rest, key, x, i + 1)
  {
    hide StrEq;
    var c := [j] + rest;
    forall k | 0 <= k < i + 1 ensures c[k].Node? && !StrEq(c[k].key, key) {
      assert k > 0 ==> c[k] == rest[k - 1];
    }
  }

  /** None of some brothers has this key. */
  ghost predicate NoneWithKey(c: seq<Json>, key: seq<byte>) {
    forall k :: 0 <= k < |c| ==> c[k].Node? && !StrEq(c[k].key, key)
  }

  /** A look-up by key finds the first brother with that key, and fails when there is none. */
  lemma {:induction false} ByKeyFirst(sons: Json, key: seq<byte>)
    ensures ByKey(sons, key).None? ==> NoneWithKey(Chain(sons), key)
    ensures ByKey(sons, key).Some? ==> exists i: nat :: FirstWithKey(Chain(sons), key, ByKey(sons, key).value, i)
  {
    hide StrEq;
    if sons.Node? {
      ByKeyFirst(sons.bro, key);
      if StrEq(sons.key, key) {
        assert FirstWithKey(Chain(sons), key, sons, 0);
      } else if ByKey(sons.bro, key).Some? {
        var x := ByKey(sons.bro, key).value;
        var i: nat :| FirstWithKey(Chain(sons.bro), key, x, i);
        FirstShift(sons, Chain(sons.bro), key, x, i);
        assert FirstWithKey(Chain(sons), key, x, i + 1);
      }
    }
  }

  /** The first brother with a key is what the look-up finds. */
  lemma ByKeyIs(sons: Json, key: seq<byte>, x: Json, i: nat)
    requires FirstWithKey(Chain(sons), key, x, i)
    ensures ByKey(sons, key) == Some(x)
  {
    hide StrEq;
    ByKeyFirst(sons, key);
    if ByKey(sons, key).Some? {
      var k: nat :| FirstWithKey(Chain(sons), key, ByKey(sons, key).value, k);
      assert i == k;
    }
  }

  /** `m` is the first son of `n` with this key. */
  ghost predicate FirstSonWith(n: Json, key: seq<byte>, m: Json) {
    n.Node? && exists i: nat :: FirstWithKey(Chain(n.son), key, m, i)
  }

  /** One key down: the first of all sons with that key, and nothing exactly when no son has it. */
  lemma DrillOne(j: Json, key: seq<byte>)
    requires j.Node?
    ensures Drill(j, [key]).Some? ==> FirstSonWith(j, key, Drill(j, [key]).value)
    ensures Drill(j, [key]).None? <==> NoneWithKey(Chain(j.son), key)
  {
    hide StrEq;
    assert [key][1..] == [];
    ByKeyFirst(j.son, key);
    ByKeyNode(j.son, key);
  }

  /** The nodes that a path of keys passes, from `j` down: each is the first son with the next key. */
  ghost predicate Passes(nodes: seq<Json>, j: Json, path: seq<seq<byte>>) {
    && |nodes| == |path| + 1 && nodes[0] == j && j.Node?
    && forall i :: 0 <= i < |path| ==> FirstSonWith(nodes[i], path[i], nodes[i + 1])
  }

  lemma PassesNode(nodes: seq<Json>, j: Json, path: seq<seq<byte>>)
    requires Passes(nodes, j, path)
    ensures nodes[|path|].Node?
  {
    if path != [] {
      assert FirstSonWith(nodes[|path| - 1], path[|path| - 1], nodes[|path| - 1 + 1]);
    }
  }

  /** Where a path of keys leads, told by the nodes passed. */
  lemma {:induction false} DrillFollows(nodes: seq<Json>, j: Json, path: seq<seq<byte>>)
    requires Passes(nodes, j, path)
    ensures Drill(j, path) == Some(nodes[|path|])
    decreases |path|
  {
    if path != [] {
      hide StrEq, FirstWithKey;
      assert FirstSonWith(nodes[0], path[0], nodes[0 + 1]);
      var i: nat :| FirstWithKey(Chain(j.son), path[0], nodes[1], i);
      ByKeyIs(j.son, path[0], nodes[1], i);
      ByKeyNode(j.son, path[0]);
      var rest, down := nodes[1..], path[1..];
      forall k | 0 <= k < |down| ensures FirstSonWith(rest[k], down[k], rest[k + 1]) {
        assert FirstSonWith(nodes[k + 1], path[k + 1], nodes[k + 1 + 1]);
      }
      DrillFollows(rest, nodes[1], down);
    }
  }

  lemma {:induction false} DrillPasses(j: Json, path: seq<seq<byte>>) returns (nodes: seq<Json>)
    requires j.Node? && Drill(j, path).Some?
    ensures Passes(nodes, j, path) && nodes[|path|] == Drill(j, path).value
    decreases |path|
  {
    hide StrEq, FirstWithKey;
    if path == [] {
      nodes := [j];
    } else {
      ByKeyFirst(j.son, path[0]);
      ByKeyNode(j.son, path[0]);
      var rest := DrillPasses(ByKey(j.son, path[0]).value, path[1..]);
      nodes := [j] + rest;
      forall k | 0 <= k < |path| ensures FirstSonWith(nodes[k], path[k], nodes[k + 1]) {
        if k > 0 {
          assert FirstSonWith(rest[k - 1], path[1..][k - 1], rest[k - 1 + 1]);
        }
      }
    }
  }

  /** Drilling down a path is drilling down its parts, one after the other. */
  lemma {:induction false} DrillSplit(j: Json, p: seq<seq<byte>>, q: seq<seq<byte>>)
    requires j.Node?
    ensures Drill(j, p + q) == if Drill(j, p).None? then None else Drill(Drill(j, p).value, q)
    decreases |p|
  {
    if p == [] {
      assert p + q == q;
    } else {
      ByKeyNode(j.son, p[0]);
      assert (p + q)[1..] == p[1..] + q;
      if ByKey(j.son, p[0]).Some? {
        DrillSplit(ByKey(j.son, p[0]).value, p[1..], q);
      }
    }
  }

  /** The comparison at the end of the path; an operator that a type does not have is never true. */
  predicate TestHolds(t: Test, j: Json)
    requires j.Node?
  {
    match t
    case OtherTest(p) => p(j)
    case IntTest(op, v, stray) =>
      if op == IN then false
      else if j.ty == String then stray(j)
      else
        var x := Int32Of(j.val);
        (match op case EQ => x == v case GT => x > v case GE => x >= v case LT => x < v case LE => x <= v case IN => false)
    case BoolTest(op, b, stray) =>
      if op != EQ then false
      else if j.ty == String then stray(j)
      else (if j.val == [] then 0 else j.val[0]) == b
  }

  /** The four bytes of an int32_t, least significant first, in two's complement. */
  function Int32Bytes(x: int): (s: seq<byte>)
    requires -0x8000_0000 <= x < 0x8000_0000
    ensures |s| == 4
  {
    var u := if x < 0 then x + 0x1_0000_0000 else x;
    [u % 0x100, u / 0x100 % 0x100, u / 0x1_0000 % 0x100, u / 0x100_0000]
  }

  /** The number that a value union holds, whatever its other bytes are. */
  lemma Int32Exact(x: int, rest: seq<byte>)
    requires -0x8000_0000 <= x < 0x8000_0000
    ensures Int32Of(Int32Bytes(x) + rest) == x
  {
    var s := Int32Bytes(x);
    assert (s + rest)[..4] == s;
    var u := if x < 0 then x + 0x1_0000_0000 else x;
    FromLe4(s);
    Digits(u);
  }

  lemma FromLe4(s: seq<byte>)
    requires |s| == 4
    ensures FromLe(s) == s[0] as int + 256 * (s[1] as int + 256 * (s[2] as int + 256 * s[3] as int))
  {
    var a, b, c := s[1..], s[1..][1..], s[1..][1..][1..];
    assert c == [s[3]] && c[1..] == [] && FromLe(c) == s[3];
    assert b[0] == s[2] && FromLe(b) == s[2] as int + 256 * FromLe(c);
    assert a[0] == s[1] && FromLe(a) == s[1] as int + 256 * FromLe(b);
  }

  lemma Digits(u: nat)
    requires u < 0x1_0000_0000
    ensures u % 0x100 + 256 * (u / 0x100 % 0x100 + 256 * (u / 0x1_0000 % 0x100 + 256 * (u / 0x100_0000))) == u
  {
  }

  /** A number test on a node that stores the int32_t `x` compares `x` with the asked number. */
  lemma IntTestExact(op: Cmp, v: int, stray: Json -> bool, x: int, rest: seq<byte>, j: Json)
    requires -0x8000_0000 <= x < 0x8000_0000 && j.Node? && j.ty != String && j.val == Int32Bytes(x) + rest
    ensures var h := TestHolds(IntTest(op, v, stray), j);
      && (op == Cmp.EQ ==> (h <==> x == v)) && (op == Cmp.GT ==> (h <==> x > v)) && (op == Cmp.GE ==> (h <==> x >= v))
      && (op == Cmp.LT ==> (h <==> x < v)) && (op == Cmp.LE ==> (h <==> x <= v)) && (op == Cmp.IN ==> !h)
    ensures ItemHolds(QueryItem([], IntTest(op, v, stray)), j) <==> TestHolds(IntTest(op, v, stray), j)
  {
    Int32Exact(x, rest);
  }

  /** A flag test compares the first byte of the value; only equality is an operator of it. */
  lemma FlagTestExact(op: Cmp, flag: byte, stray: Json -> bool, b: byte, rest: seq<byte>, j: Json)
    requires j.Node? && j.ty != String && j.val == [b] + rest
    ensures TestHolds(BoolTest(op, flag, stray), j) <==> op == Cmp.EQ && b == flag
    ensures ItemHolds(QueryItem([], BoolTest(op, flag, stray)), j) <==> TestHolds(BoolTest(op, flag, stray), j)
  {
  }

  /** A node without a value, an object, compares as zero; what the model leaves open is taken as given. */
  lemma OtherTests(j: Json, op: Cmp, v: int, flag: byte, stray: Json -> bool)
    requires j.Node?
    ensures j.ty != String && j.val == [] ==>
      (TestHolds(IntTest(op, v, stray), j) <==> TestHolds(IntTest(op, v, stray), j.(val := Int32Bytes(0))))
      && (TestHolds(BoolTest(op, flag, stray), j) <==> op == Cmp.EQ && flag == 0)
    ensures j.ty == String ==>
      (TestHolds(IntTest(op, v, stray), j) <==> op != Cmp.IN && stray(j))
      && (TestHolds(BoolTest(op, flag, stray), j) <==> op == Cmp.EQ && stray(j))
    ensures TestHolds(OtherTest(stray), j) <==> stray(j)
  {
    Int32Exact(0, []);
    assert Int32Bytes(0) + [] == Int32Bytes(0);
  }

  predicate ItemHolds(it: QueryItem, j: Json)
    requires j.Node?
  {
    var d := Drill(j, it.path);
    d.Some? && TestHolds(it.test, d.value)
  }

  predicate ItemsHold(items: seq<QueryItem>, j: Json)
    requires j.Node?
  {
    forall i :: 0 <= i < |items| ==> ItemHolds(items[i], j)
  }

  /** No node of a chain of brothers, nor any below them, meets the conditions. */
  predicate NoneHold(items: seq<QueryItem>, j: Json) {
    match j
    case Nil => true
    case Node(key, ty, val, bro, son) => !ItemsHold(items, j) && NoneHold(items, bro) && NoneHold(items, son)
  }

  /** The same, also for every node without its brothers and sons, which is how a failed write may leave it. */
  predicate Quiet(items: seq<QueryItem>, j: Json) {
    match j
    case Nil => true
    case Node(key, ty, val, bro, son) =>
      !ItemsHold(items, j) && !ItemsHold(items, Bare(j)) && Quiet(items, bro) && Quiet(items, son)
  }

  lemma {:induction false} QuietNone(items: seq<QueryItem>, j: Json)
    requires Quiet(items, j)
    ensures NoneHold(items, j)
  {
    hide ItemsHold;
    if j.Node? {
      QuietNone(items, j.bro);
      QuietNone(items, j.son);
    }
  }

  /** Whatever a write of a quiet tree leaves behind meets no conditions. */
  lemma {:induction false} QuietFrags(items: seq<QueryItem>, j: Json, p: Json)
    requires Quiet(items, ReadBack(j)) && p in Frags(j)
    ensures NoneHold(items, ReadBack(p))
  {
    hide ItemsHold, ReadKey, ReadVal;
    if p == j {
      QuietNone(items, ReadBack(j));
    } else if p == Bare(j) {
      assert ReadBack(p) == Bare(ReadBack(j));
    } else if p in Frags(j.bro) {
      QuietFrags(items, j.bro, p);
    } else {
      QuietFrags(items, j.son, p);
    }
  }

  /** query_check_type: no type asked for, or the stored type has that name. */
  predicate TypeHolds(asked: Option<seq<byte>>, name: Option<seq<byte>>) {
    asked.None? || (name.Some? && StrEq(asked.value, name.value))
  }

  /** The type test in terms of bytes: no name is asked for, or there is one that is the same C string. */
  lemma TypeHoldsExact(asked: Option<seq<byte>>, name: Option<seq<byte>>)
    ensures TypeHolds(asked, name) <==> asked == None || (name.Some? && SameCString(asked.value, name.value))
  {
    hide StrEq, SameCString;
    if asked.Some? && name.Some? {
      StrEqExact(asked.value, name.value);
    }
  }

  /** Some nodes lead down the path of a condition, and the last of them passes its test. */
  ghost predicate Met(it: QueryItem, j: Json) {
    exists nodes: seq<Json> :: Passes(nodes, j, it.path) && nodes[|it.path|].Node? && TestHolds(it.test, nodes[|it.path|])
  }

  lemma ItemIsMet(it: QueryItem, j: Json)
    requires j.Node?
    ensures ItemHolds(it, j) <==> Met(it, j)
  {
    hide TestHolds, FirstSonWith, Drill;
    if ItemHolds(it, j) {
      var nodes := DrillPasses(j, it.path);
      PassesNode(nodes, j, it.path);
    }
    if Met(it, j) {
      var nodes: seq<Json> :| Passes(nodes, j, it.path) && nodes[|it.path|].Node? && TestHolds(it.test, nodes[|it.path|]);
      DrillFollows(nodes, j, it.path);
    }
  }

  /** What query_check decides: every condition is met, and the type has the asked name if one is asked for. */
  lemma AcceptsExact(items: seq<QueryItem>, asked: Option<seq<byte>>, j: Json, name: Option<seq<byte>>)
    requires j.Node?
    ensures ItemsHold(items, j) && TypeHolds(asked, name) <==>
      && (forall i :: 0 <= i < |items| ==> Met(items[i], j))
      && (asked == None || (name.Some? && SameCString(asked.value, name.value)))
  {
    hide ItemHolds, Met, TypeHolds, SameCString;
    TypeHoldsExact(asked, name);
    forall i | 0 <= i < |items| ensures ItemHolds(items[i], j) <==> Met(items[i], j) {
      ItemIsMet(items[i], j);
    }
  }

  class Query {
    var typeName: Option<seq<byte>>
    var items: seq<QueryItem>

    constructor (typeName: Option<seq<byte>>)
      ensures this.typeName == typeName && items == []
    {
      this.typeName := typeName;
      items := [];
    }

    /** A new condition goes in right behind the first one. */
    method ItemAdd(it: QueryItem)
      modifies `items
      ensures items == Inserted(old(items), it)
      ensures multiset(items) == multiset(old(items)) + multiset{it}
    {
      InsertedItems(items, it);
      if items == [] {
        items := [it];
      } else {
        items := [items[0], it] + items[1..];
      }
    }

    ghost predicate Accepts(j: Json, name: Option<seq<byte>>)
      reads this
      requires j.Node?
    {
      ItemsHold(items, j) && TypeHolds(typeName, name)
    }

    method Check(j: Json, name: Option<seq<byte>>) returns (b: bool)
      requires j.Node?
      ensures b <==> Accepts(j, name)
      ensures b <==>
        && (forall i :: 0 <= i < |items| ==> Met(items[i], j))
        && (typeName == None || (name.Some? && SameCString(typeName.value, name.value)))
    {
      hide ItemHolds, Met, TypeHolds, SameCString;
      AcceptsExact(items, typeName, j, name);
      for i := 0 to |items|
        invariant forall k :: 0 <= k < i ==> ItemHolds(items[k], j)
      {
        var h := ItemCheck(items[i], j);
        if !h {
          return false;
        }
      }
      return TypeHolds(typeName, name);
    }
  }

  /** `x` is the first of some brothers with exactly this key. */
  ghost predicate FirstPlain(c: seq<Json>, key: seq<byte>, x: Json, i: nat) {
    && i < |c| && c[i] == x && x.Node? && x.key == key
    && forall k :: 0 <= k < i ==> c[k].Node? && c[k].key != key
  }

  /** For a key without NUL the look-up compares keys byte for byte. */
  lemma ByKeyPlain(sons: Json, key: seq<byte>)
    requires NoNul(key)
    ensures ByKey(sons, key).None? ==> forall k :: 0 <= k < |Chain(sons)| ==> Chain(sons)[k].Node? && Chain(sons)[k].key != key
    ensures ByKey(sons, key).Some? ==> exists i: nat :: i < |Chain(sons)| && FirstPlain(Chain(sons), key, ByKey(sons, key).value, i)
  {
    hide StrEq, NoNul;
    var c := Chain(sons);
    ByKeyFirst(sons, key);
    forall k | 0 <= k < |c| && c[k].Node? ensures StrEq(c[k].key, key) <==> c[k].key == key {
      StrEqPlain(c[k].key, key);
    }
    if ByKey(sons, key).Some? {
      var i: nat :| FirstWithKey(c, key, ByKey(sons, key).value, i);
      assert FirstPlain(c, key, ByKey(sons, key).value, i);
    }
  }

  method SonByKey(j: Json, key: seq<byte>) returns (r: Option<Json>)
    requires j.Node?
    ensures r == ByKey(j.son, key)
    ensures NoNul(key) ==>
      match r
      case Some(x) => exists i: nat :: i < |Chain(j.son)| && FirstPlain(Chain(j.son), key, x, i)
      case None => forall k :: 0 <= k < |Chain(j.son)| ==> Chain(j.son)[k].Node? && Chain(j.son)[k].key != key
  {
    if NoNul(key) {
      ByKeyPlain(j.son, key);
    }
    var cur := j.son;
    while cur.Node?
      invariant ByKey(j.son, key) == ByKey(cur, key)
      decreases cur
    {
      if StrEq(cur.key, key) {
        return Some(cur);
      }
      cur := cur.bro;
    }
    return None;
  }

  method ItemCheck(it: QueryItem, j: Json) returns (b: bool)
    requires j.Node?
    ensures b <==> ItemHolds(it, j)
    ensures b <==> Met(it, j)
  {
    ItemIsMet(it, j);
    hide Met;
    var cur, i := j, 0;
    while i < |it.path|
      invariant i <= |it.path| && cur.Node? && Drill(j, it.path) == Drill(cur, it.path[i..])
    {
      ByKeyNode(cur.son, it.path[i]);
      var son := SonByKey(cur, it.path[i]);
      if son.None? {
        return false;
      }
      cur := son.value;
      assert it.path[i..][1..] == it.path[i + 1..];
      i := i + 1;
    }
    return TestHolds(it.test, cur);
  }

  function Inserted(items: seq<QueryItem>, it: QueryItem): seq<QueryItem> {
    if items == [] then [it] else [items[0], it] + items[1..]
  }

  lemma InsertedItems(items: seq<QueryItem>, it: QueryItem)
    ensures multiset(Inserted(items, it)) == multiset(items) + multiset{it}
  {
    if items != [] {
      assert items == [items[0]] + items[1..];
    }
  }

  /** All conditions added so far, in the order the list ends up in. */
  function AddAll(added: seq<QueryItem>): seq<QueryItem> {
    if added == [] then [] else Inserted(AddAll(added[..|added| - 1]), added[|added| - 1])
  }

  lemma {:induction false} AddAllItems(added: seq<QueryItem>)
    ensures multiset(AddAll(added)) == multiset(added)
  {
    hide Inserted;
    if added != [] {
      var n := |added| - 1;
      AddAllItems(added[..n]);
      InsertedItems(AddAll(added[..n]), added[n]);
      assert added == added[..n] + [added[n]];
    }
  }

  /** However the insertions permute them, the query is the conjunction of all conditions ever added. */
  lemma CheckIsConjunction(added: seq<QueryItem>, j: Json)
    requires j.Node?
    ensures ItemsHold(AddAll(added), j) <==> ItemsHold(added, j)
  {
    AddAllItems(added);
    ItemsHoldSome(AddAll(added), added, j);
    ItemsHoldSome(added, AddAll(added), j);
  }

  lemma ItemsHoldSome(items: seq<QueryItem>, some: seq<QueryItem>, j: Json)
    requires j.Node? && multiset(items) == multiset(some)
    ensures ItemsHold(items, j) ==> ItemsHold(some, j)
  {
    hide ItemHolds;
    forall i | 0 <= i < |some| && ItemsHold(items, j) ensures ItemHolds(some[i], j) {
      assert some[i] in multiset(items);
      var k :| 0 <= k < |items| && items[k] == some[i];
    }
  }

  /** The order of the conditions in the list, in closed form: the first, then the rest last to first. */
  lemma {:induction false} AddAllOrder(added: seq<QueryItem>)
    requires added != []
    ensures |AddAll(added)| == |added| && AddAll(added)[0] == added[0]
    ensures forall i :: 1 <= i < |added| ==> AddAll(added)[i] == added[|added| - i]
  {
    var n := |added| - 1;
    if n == 0 {
      assert added[..0] == [];
    } else {
      AddAllOrder(added[..n]);
    }
  }
}
