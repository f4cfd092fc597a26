/** JSON trees in left-child/right-sibling form, and the C strings they are made of. */
module Json {
  import opened Bytes

  datatype JsonType = Int32 | Float | String | Bool | Object

  function TypeCode(t: JsonType): (c: u64)
    ensures c <= 4
  {
    match t
    case Int32 => 0
    case Float => 1
    case String => 2
    case Bool => 3
    case Object => 4
  }

  function TypeOf(c: u64): (t: JsonType)
    requires c <= 4
    ensures TypeCode(t) == c
  {
    if c == 0 then Int32 else if c == 1 then Float else if c == 2 then String else if c == 3 then Bool else Object
  }

  /** The codes that entities and attributes are stored with. */
  lemma TypeCodes()
    ensures TypeCode(Int32) == 0 && TypeCode(Float) == 1 && TypeCode(String) == 2 && TypeCode(Bool) == 3 && TypeCode(Object) == 4
  {
  }

  /** A node with its following brothers and its sons; `val` holds the raw bytes of the value. */
  datatype Json = Nil | Node(key: seq<byte>, ty: JsonType, val: seq<byte>, bro: Json, son: Json)

  /** json_add_bro: appends at the end of the chain of brothers. */
  function AddBro(j: Json, b: Json): (r: Json)
    requires j.Node?
    ensures r.Node?
  {
    if j.bro.Nil? then j.(bro := b) else j.(bro := AddBro(j.bro, b))
  }

  /** json_add_son: the first son, or a further brother of the first son. */
  function AddSon(j: Json, s: Json): (r: Json)
    requires j.Node?
    ensures r.Node?
  {
    if j.son.Nil? then j.(son := s) else j.(son := AddBro(j.son, s))
  }

  /** A chain of brothers, one by one. */
  function Brothers(j: Json): seq<Json> {
    match j
    case Nil => []
    case Node(key, ty, val, bro, son) => [j.(bro := Nil)] + Brothers(bro)
  }

  /** json_add_bro puts the new brothers behind the old ones and changes nothing else. */
  lemma {:induction false} AddBroAppends(j: Json, b: Json)
    requires j.Node?
    ensures Brothers(AddBro(j, b)) == Brothers(j) + Brothers(b)
  {
    if j.bro.Node? {
      AddBroAppends(j.bro, b);
    }
    var r := AddBro(j, b);
    assert r == j.(bro := r.bro);
  }

  /** json_add_son puts the new sons behind the old ones. */
  lemma AddSonAppends(j: Json, s: Json)
    requires j.Node?
    ensures AddSon(j, s) == j.(son := AddSon(j, s).son)
    ensures Brothers(AddSon(j, s).son) == Brothers(j.son) + Brothers(s)
  {
    if j.son.Node? {
      AddBroAppends(j.son, s);
    }
  }

  /** strncpy into a fresh buffer of the same size: nothing survives the first NUL. */
  function StrCopy(s: seq<byte>): (r: seq<byte>)
    ensures |r| == |s|
  {
    if s == [] then [] else if s[0] == 0 then Zeros(|s|) else [s[0]] + StrCopy(s[1..])
  }

  lemma {:induction false} StrCopyZeros(n: nat)
    ensures StrCopy(Zeros(n)) == Zeros(n)
  {
    if n != 0 {
      assert Zeros(n)[0] == 0;
    }
  }

  /** Strings built by string_ctor are fixed points of it, so storing them loses nothing. */
  lemma {:induction false} StrCopyIdempotent(s: seq<byte>)
    ensures StrCopy(StrCopy(s)) == StrCopy(s)
  {
    if s != [] {
      if s[0] == 0 {
        StrCopyZeros(|s|);
      } else {
        StrCopyIdempotent(s[1..]);
        assert StrCopy(s)[1..] == StrCopy(s[1..]);
      }
    }
  }

  /** strncpy gives the string back exactly when no byte other than NUL follows a NUL. */
  lemma {:induction false} StrCopyExact(s: seq<byte>)
    ensures StrCopy(s) == s <==> forall i, j :: 0 <= i < j < |s| && s[i] == 0 ==> s[j] == 0
  {
    if s != [] {
      if s[0] == 0 {
        if StrCopy(s) == s {
          assert forall j :: 0 <= j < |s| ==> s[j] == 0;
        }
      } else {
        var t := s[1..];
        StrCopyExact(t);
        assert s == [s[0]] + t;
        assert StrCopy(s)[1..] == StrCopy(t);
        if StrCopy(s) == s {
          assert StrCopy(t) == t;
          forall i, j | 0 <= i < j < |s| && s[i] == 0 ensures s[j] == 0 {
            assert t[i - 1] == 0 ==> t[j - 1] == 0;
          }
        } else if forall i, j :: 0 <= i < j < |s| && s[i] == 0 ==> s[j] == 0 {
          forall i, j | 0 <= i < j < |t| && t[i] == 0 ensures t[j] == 0 {
            assert s[i + 1] == 0 ==> s[j + 1] == 0;
          }
          assert false;
        }
      }
    }
  }

  predicate NoNul(s: seq<byte>) {
    forall i :: 0 <= i < |s| ==> s[i] != 0
  }

  /** Where a string's first NUL is, or its length. */
  function FirstNul(s: seq<byte>): (n: nat)
    ensures n <= |s| && (forall i :: 0 <= i < n ==> s[i] != 0) && (n < |s| ==> s[n] == 0)
  {
    if s == [] || s[0] == 0 then 0 else 1 + FirstNul(s[1..])
  }

  /** Byte by byte: the copy is the string up to its first NUL, and NUL from there on. */
  lemma {:induction false} StrCopyBytes(s: seq<byte>)
    ensures forall i :: 0 <= i < |s| ==> StrCopy(s)[i] == if i < FirstNul(s) then s[i] else 0
  {
    if s != [] && s[0] != 0 {
      var t := s[1..];
      StrCopyBytes(t);
      forall i | 0 <= i < |s| ensures StrCopy(s)[i] == if i < FirstNul(s) then s[i] else 0 {
        assert i > 0 ==> StrCopy(s)[i] == StrCopy(t)[i - 1] && s[i] == t[i - 1];
      }
    }
  }

  /** string_cmp == 0: same length, and strncmp sees no difference before the first NUL. */
  predicate StrEq(a: seq<byte>, b: seq<byte>) {
    |a| == |b| && StrCopy(a) == StrCopy(b)
  }

  /** The first `n` bytes agree and hold no NUL, and there the strings end or both have a NUL. */
  ghost predicate AgreeUpTo(a: seq<byte>, b: seq<byte>, n: nat) {
    && |a| == |b| && n <= |a| && (forall i :: 0 <= i < n ==> a[i] == b[i] && a[i] != 0)
    && (n == |a| || (a[n] == 0 && b[n] == 0))
  }

  /** Two byte strings of one length that are the same C string. */
  ghost predicate SameCString(a: seq<byte>, b: seq<byte>) {
    exists n: nat :: AgreeUpTo(a, b, n)
  }

  /** What string_cmp decides, in terms of bytes. */
  lemma StrEqExact(a: seq<byte>, b: seq<byte>)
    ensures StrEq(a, b) <==> SameCString(a, b)
  {
    hide StrCopy, FirstNul;
    StrCopyBytes(a);
    StrCopyBytes(b);
    var n, k := FirstNul(a), FirstNul(b);
    if StrEq(a, b) {
      assert n < |a| ==> StrCopy(b)[n] == 0;
      assert k < |b| ==> StrCopy(a)[k] == 0;
      forall i | 0 <= i < n ensures a[i] == b[i] {
        assert StrCopy(a)[i] == StrCopy(b)[i];
      }
      assert AgreeUpTo(a, b, n);
    }
    if SameCString(a, b) {
      var m: nat :| AgreeUpTo(a, b, m);
      assert n == m && k == m;
      forall i | 0 <= i < |a| ensures StrCopy(a)[i] == StrCopy(b)[i] {
      }
    }
  }

  /** It makes no difference to string_cmp whether a string has been through strncpy. */
  lemma StrEqCopy(a: seq<byte>, b: seq<byte>)
    ensures StrEq(a, StrCopy(b)) <==> StrEq(b, a)
  {
    StrCopyIdempotent(b);
  }

  /** Against a string without NUL it is plain equality, also for what strncpy has made of the other one. */
  lemma StrEqPlain(a: seq<byte>, b: seq<byte>)
    requires NoNul(b)
    ensures StrEq(a, b) <==> a == b
    ensures StrEq(b, a) <==> a == b
    ensures StrEq(StrCopy(a), b) <==> a == b
  {
    hide StrCopy, FirstNul;
    StrCopyIdempotent(a);
    StrCopyBytes(a);
    StrCopyBytes(b);
    if StrEq(a, b) {
      assert FirstNul(b) == |b|;
      forall i | 0 <= i < |a| ensures a[i] == b[i] {
        assert StrCopy(a)[i] == StrCopy(b)[i];
      }
    }
  }

  /** The raw bytes of a value have the size that json_val_size reports. */
  predicate ValWf(ty: JsonType, val: seq<byte>) {
    match ty
    case Object => val == []
    case String => true
    case _ => |val| == 8
  }

  predicate Wf(j: Json) {
    match j
    case Nil => true
    case Node(key, ty, val, bro, son) => ValWf(ty, val) && Wf(bro) && Wf(son)
  }

  function Size(j: Json): nat {
    match j
    case Nil => 0
    case Node(key, ty, val, bro, son) => 1 + Size(bro) + Size(son)
  }

  /** A node without its brothers and sons. */
  function Bare(j: Json): Json
    requires j.Node?
  {
    j.(bro := Nil, son := Nil)
  }

  /** What a write of a tree can leave behind: its subtrees, and its nodes without their links. */
  ghost function Frags(j: Json): set<Json> {
    match j
    case Nil => {}
    case Node(key, ty, val, bro, son) => {j, Bare(j)} + Frags(bro) + Frags(son)
  }

  /** What a stored key comes back as. */
  function ReadKey(key: seq<byte>): seq<byte> {
    StrCopy(key)
  }

  /** What a stored value comes back as: the union starts out zero and is read over. */
  function ReadVal(ty: JsonType, raw: seq<byte>): seq<byte> {
    match ty
    case Object => []
    case String => StrCopy(raw)
    case _ => if |raw| < 8 then raw + Zeros(8 - |raw|) else raw
  }

  /** A whole tree after a trip through storage. */
  function ReadBack(j: Json): Json {
    match j
    case Nil => Nil
    case Node(key, ty, val, bro, son) => Node(ReadKey(key), ty, ReadVal(ty, val), ReadBack(bro), ReadBack(son))
  }

  /** What comes back of one node: keys and strings up to their first NUL, other values byte for byte. */
  lemma ReadBackBytes(j: Json)
    requires j.Node? && ValWf(j.ty, j.val)
    ensures ReadBack(j).Node? && ReadBack(j).ty == j.ty && |ReadBack(j).key| == |j.key| && |ReadBack(j).val| == |j.val|
    ensures forall i :: 0 <= i < |j.key| ==> ReadBack(j).key[i] == if i < FirstNul(j.key) then j.key[i] else 0
    ensures forall i :: 0 <= i < |j.val| ==> ReadBack(j).val[i] == if j.ty == String && i >= FirstNul(j.val) then 0 else j.val[i]
    ensures ReadBack(j).bro == ReadBack(j.bro) && ReadBack(j).son == ReadBack(j.son)
  {
    hide StrCopy, FirstNul;
    StrCopyBytes(j.key);
    StrCopyBytes(j.val);
  }

  /** Every key and string is as string_ctor would have built it. */
  predicate Canonical(j: Json) {
    match j
    case Nil => true
    case Node(key, ty, val, bro, son) =>
      StrCopy(key) == key && (ty == String ==> StrCopy(val) == val) && Canonical(bro) && Canonical(son)
  }

  /** Storage gives a well-formed tree back unchanged exactly when its strings are C strings. */
  lemma {:induction false} ReadBackExact(j: Json)
    requires Wf(j)
    ensures ReadBack(j) == j <==> Canonical(j)
  {
    if j.Node? {
      ReadBackExact(j.bro);
      ReadBackExact(j.son);
    }
  }
}
