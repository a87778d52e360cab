// The simplifier: every non-empty array is trimmed to one element, chosen
// as the deepest and then the smallest, recursively (src/simplify-json.ts).

module SimplifyJson {
  import opened JsonValue
  import opened Stringify
  import opened Selection

  function Max(a: nat, b: nat): nat {
    if a < b then b else a
  }

  /** nestingDepth: 0 for primitives and empty containers, 1 plus the
      largest depth of the children for a non-empty container. */
  function Depth(v: Json): nat {
    match v
    case JArr(es) => if |es| == 0 then 0 else 1 + MaxDepth(es)
    case JObj(ms) => if |ms| == 0 then 0 else 1 + MaxValueDepth(ms)
    case _ => 0
  }

  /** Math.max over the depths of the elements (0 for none). */
  function MaxDepth(es: seq<Json>): nat {
    if |es| == 0 then 0 else Max(Depth(es[0]), MaxDepth(es[1..]))
  }

  /** Math.max over the depths of an object's values (0 for none). */
  function MaxValueDepth(ms: seq<(string, Json)>): nat {
    if |ms| == 0 then 0
    else
      var m := ms[0];
      assert m.1 < m;
      Max(Depth(m.1), MaxValueDepth(ms[1..]))
  }

  lemma {:induction false} MaxDepthIsMaximum(es: seq<Json>)
    requires |es| > 0
    ensures forall i :: 0 <= i < |es| ==> Depth(es[i]) <= MaxDepth(es)
    ensures exists i :: 0 <= i < |es| && Depth(es[i]) == MaxDepth(es)
  {
    if |es| > 1 {
      MaxDepthIsMaximum(es[1..]);
      var i :| 0 <= i < |es[1..]| && Depth(es[1..][i]) == MaxDepth(es[1..]);
      forall j | 0 <= j < |es| ensures Depth(es[j]) <= MaxDepth(es) {
        if j > 0 { assert es[j] == es[1..][j - 1]; }
      }
      if Depth(es[0]) < MaxDepth(es[1..]) {
        assert Depth(es[i + 1]) == MaxDepth(es);
      } else {
        assert Depth(es[0]) == MaxDepth(es);
      }
    } else {
      assert Depth(es[0]) == MaxDepth(es);
    }
  }

  lemma {:induction false} MaxValueDepthIsMaximum(ms: seq<(string, Json)>)
    requires |ms| > 0
    ensures forall i :: 0 <= i < |ms| ==> Depth(ms[i].1) <= MaxValueDepth(ms)
    ensures exists i :: 0 <= i < |ms| && Depth(ms[i].1) == MaxValueDepth(ms)
  {
    if |ms| > 1 {
      MaxValueDepthIsMaximum(ms[1..]);
      var i :| 0 <= i < |ms[1..]| && Depth(ms[1..][i].1) == MaxValueDepth(ms[1..]);
      forall j | 0 <= j < |ms| ensures Depth(ms[j].1) <= MaxValueDepth(ms) {
        if j > 0 { assert ms[j] == ms[1..][j - 1]; }
      }
      if Depth(ms[0].1) < MaxValueDepth(ms[1..]) {
        assert Depth(ms[i + 1].1) == MaxValueDepth(ms);
      } else {
        assert Depth(ms[0].1) == MaxValueDepth(ms);
      }
    } else {
      assert Depth(ms[0].1) == MaxValueDepth(ms);
    }
  }

  /** The depth score: 0 exactly for primitives and empty containers, and
      for a non-empty container one more than its deepest child, so at
      least 1. */
  lemma DepthScore(v: Json)
    ensures IsPrimitive(v) || v == JArr([]) || v == JObj([]) ==> Depth(v) == 0
    ensures v.JArr? && |v.elems| > 0 ==>
      Depth(v) >= 1 &&
      (forall i :: 0 <= i < |v.elems| ==> Depth(v.elems[i]) < Depth(v)) &&
      (exists i :: 0 <= i < |v.elems| && Depth(v) == 1 + Depth(v.elems[i]))
    ensures v.JObj? && |v.members| > 0 ==>
      Depth(v) >= 1 &&
      (forall i :: 0 <= i < |v.members| ==> Depth(v.members[i].1) < Depth(v)) &&
      (exists i :: 0 <= i < |v.members| && Depth(v) == 1 + Depth(v.members[i].1))
  {
    match v
    case JArr(es) => if |es| > 0 { MaxDepthIsMaximum(es); }
    case JObj(ms) => if |ms| > 0 { MaxValueDepthIsMaximum(ms); }
    case _ =>
  }

  /** The selection loop of simplifyJson: keeps the index, depth and size
      of the best element seen so far. */
  method SelectBest(es: seq<Json>) returns (best: nat)
    requires |es| > 0
    ensures best == BestIndex(es, Depth, Size)
    ensures IsBest(es, best, Depth, Size)
  {
    best := 0;
    var bestDepth := Depth(es[0]);
    var bestSize := Size(es[0]);
    var i := 1;
    while i < |es|
      invariant 1 <= i <= |es|
      invariant best == BestIndex(es[..i], Depth, Size)
      invariant bestDepth == Depth(es[best]) && bestSize == Size(es[best])
    {
      BestIndexStep(es, i, Depth, Size);
      var depth := Depth(es[i]);
      var size := Size(es[i]);
      if depth > bestDepth || (depth == bestDepth && size < bestSize) {
        best := i;
        bestDepth := depth;
        bestSize := size;
      }
      i := i + 1;
    }
    assert es[..i] == es;
    BestIndexIsBest(es, Depth, Size);
  }

  /** simplifyJson: arrays keep only their best element, simplified;
      objects keep their keys, each value simplified; primitives pass. */
  function Simplify(v: Json): Json {
    match v
    case JArr(es) => if |es| == 0 then JArr([]) else JArr([Simplify(es[BestIndex(es, Depth, Size)])])
    case JObj(ms) => JObj(SimplifyMembers(ms))
    case _ => v
  }

  /** The members of an object, each value simplified, in order. */
  function SimplifyMembers(ms: seq<(string, Json)>): seq<(string, Json)> {
    if |ms| == 0 then []
    else
      var m := ms[0];
      assert m.1 < m;
      [(m.0, Simplify(m.1))] + SimplifyMembers(ms[1..])
  }

  lemma {:induction false} SimplifyMembersShape(ms: seq<(string, Json)>)
    ensures |SimplifyMembers(ms)| == |ms|
    ensures Keys(SimplifyMembers(ms)) == Keys(ms)
    ensures forall i :: 0 <= i < |ms| ==>
      SimplifyMembers(ms)[i] == (ms[i].0, Simplify(ms[i].1))
  {
    if |ms| > 0 {
      SimplifyMembersShape(ms[1..]);
      var r := SimplifyMembers(ms);
      forall i | 0 <= i < |ms| ensures r[i] == (ms[i].0, Simplify(ms[i].1)) {
        if i > 0 { assert ms[i] == ms[1..][i - 1]; }
      }
    }
  }

  /** An empty array stays empty; a non-empty one becomes a one-element
      array holding the simplified form of the element the policy keeps. */
  lemma SimplifyArray(es: seq<Json>)
    ensures |es| == 0 ==> Simplify(JArr(es)) == JArr([])
    ensures |es| > 0 ==>
      Simplify(JArr(es)).JArr? && |Simplify(JArr(es)).elems| == 1 &&
      exists k: nat :: IsBest(es, k, Depth, Size) && Simplify(JArr(es)).elems[0] == Simplify(es[k])
  {
    if |es| > 0 {
      BestIndexIsBest(es, Depth, Size);
    }
  }

  /** An object keeps its keys in order, and each value is simplified. */
  lemma SimplifyObject(ms: seq<(string, Json)>)
    ensures Simplify(JObj(ms)).JObj?
    ensures Keys(Simplify(JObj(ms)).members) == Keys(ms)
    ensures forall i :: 0 <= i < |ms| ==>
      Simplify(JObj(ms)).members[i].1 == Simplify(ms[i].1)
  {
    SimplifyMembersShape(ms);
  }

  /** Null, booleans, numbers and strings are returned unchanged. */
  lemma SimplifyPrimitive(v: Json)
    requires IsPrimitive(v)
    ensures Simplify(v) == v
  {
  }

  /** Simplification keeps the depth score. */
  lemma {:induction false} SimplifyKeepsDepth(v: Json)
    ensures Depth(Simplify(v)) == Depth(v)
    decreases v
  {
    match v
    case JArr(es) =>
      if |es| > 0 {
        var k := BestIndex(es, Depth, Size);
        KeptIsDeepest(es);
        SimplifyKeepsDepth(es[k]);
        assert MaxDepth([Simplify(es[k])]) == Depth(Simplify(es[k]));
      }
    case JObj(ms) =>
      SimplifyMembersShape(ms);
      SimplifyMembersKeepDepth(ms);
    case _ =>
  }

  /** The element kept is as deep as the deepest element. */
  lemma KeptIsDeepest(es: seq<Json>)
    requires |es| > 0
    ensures Depth(es[BestIndex(es, Depth, Size)]) == MaxDepth(es)
  {
    var k := BestIndex(es, Depth, Size);
    BestIndexIsBest(es, Depth, Size);
    MaxDepthIsMaximum(es);
    var i :| 0 <= i < |es| && Depth(es[i]) == MaxDepth(es);
    assert Depth(es[i]) <= Depth(es[k]);
  }

  lemma {:induction false} SimplifyMembersKeepDepth(ms: seq<(string, Json)>)
    ensures MaxValueDepth(SimplifyMembers(ms)) == MaxValueDepth(ms)
    decreases ms
  {
    if |ms| > 0 {
      var m := ms[0];
      assert m.1 < m;
      SimplifyKeepsDepth(m.1);
      SimplifyMembersKeepDepth(ms[1..]);
    }
  }

  /** Every array anywhere in the value has at most one element. */
  predicate Trimmed(v: Json) {
    match v
    case JArr(es) => |es| <= 1 && forall i :: 0 <= i < |es| ==> Trimmed(es[i])
    case JObj(ms) => forall m :: m in ms ==> Trimmed(m.1)
    case _ => true
  }

  lemma {:induction false} SimplifyTrims(v: Json)
    ensures Trimmed(Simplify(v))
    decreases v
  {
    match v
    case JArr(es) =>
      if |es| > 0 {
        SimplifyTrims(es[BestIndex(es, Depth, Size)]);
      }
    case JObj(ms) =>
      SimplifyMembersShape(ms);
      var r := SimplifyMembers(ms);
      forall i | 0 <= i < |ms| ensures Trimmed(r[i].1) {
        assert ms[i].1 < ms[i];
        SimplifyTrims(ms[i].1);
      }
    case _ =>
  }

  /** A value whose arrays all have at most one element is left as it is. */
  lemma {:induction false} TrimmedIsFixed(v: Json)
    requires Trimmed(v)
    ensures Simplify(v) == v
    decreases v
  {
    match v
    case JArr(es) =>
      if |es| == 1 {
        TrimmedIsFixed(es[0]);
        assert es == [es[0]];
      }
    case JObj(ms) =>
      SimplifyMembersShape(ms);
      var r := SimplifyMembers(ms);
      forall i | 0 <= i < |ms| ensures r[i] == ms[i] {
        assert ms[i] in ms;
        assert ms[i].1 < ms[i];
        TrimmedIsFixed(ms[i].1);
      }
      assert r == ms;
    case _ =>
  }

  /** Simplifying twice gives what simplifying once gives. */
  lemma SimplifyIdempotent(v: Json)
    ensures Simplify(Simplify(v)) == Simplify(v)
  {
    SimplifyTrims(v);
    TrimmedIsFixed(Simplify(v));
  }

  /** The result of a parsed value again has distinct keys in every object. */
  lemma {:induction false} SimplifyKeepsWellFormed(v: Json)
    requires WellFormed(v)
    ensures WellFormed(Simplify(v))
    decreases v
  {
    match v
    case JArr(es) =>
      if |es| > 0 {
        SimplifyKeepsWellFormed(es[BestIndex(es, Depth, Size)]);
      }
    case JObj(ms) =>
      SimplifyMembersShape(ms);
      var r := SimplifyMembers(ms);
      assert Keys(r) == Keys(ms);
      forall i, j | 0 <= i < j < |r| ensures r[i].0 != r[j].0 {
        assert Keys(r)[i] == Keys(ms)[i] && Keys(r)[j] == Keys(ms)[j];
      }
      forall i | 0 <= i < |ms| ensures WellFormed(r[i].1) {
        assert ms[i] in ms;
        assert ms[i].1 < ms[i];
        SimplifyKeepsWellFormed(ms[i].1);
      }
    case _ =>
  }

  /** simplifyJson as an imperative procedure: the selection scan, then
      the object rebuilt member by member. */
  method SimplifyJson(v: Json) returns (r: Json)
    ensures r == Simplify(v)
    decreases v
  {
    match v
    case JArr(es) =>
      if |es| == 0 {
        r := JArr([]);
      } else {
        var best := SelectBest(es);
        var s := SimplifyJson(es[best]);
        r := JArr([s]);
      }
    case JObj(ms) =>
      var result: seq<(string, Json)> := [];
      for i := 0 to |ms|
        invariant |result| == i
        invariant forall j :: 0 <= j < i ==> result[j] == (ms[j].0, Simplify(ms[j].1))
      {
        var (key, val) := ms[i];
        assert val < ms[i];
        var s := SimplifyJson(val);
        result := result + [(key, s)];
      }
      SimplifyMembersShape(ms);
      assert result == SimplifyMembers(ms);
      r := JObj(result);
    case _ =>
      r := v;
  }

  /** The deeper of two elements is kept. */
  lemma DeeperElementKept()
    ensures Simplify(JArr([JObj([("a", JNum(1))]), JObj([("a", JObj([("b", JNum(2))]))])]))
         == JArr([JObj([("a", JObj([("b", JNum(2))]))])])
  {
    var inner := JObj([("b", JNum(2))]);
    var first, second := JObj([("a", JNum(1))]), JObj([("a", inner)]);
    assert Depth(inner) == 1 by { assert MaxValueDepth([("b", JNum(2))]) == 0; }
    assert Depth(first) == 1 by { assert MaxValueDepth([("a", JNum(1))]) == 0; }
    assert Depth(second) == 2 by { assert MaxValueDepth([("a", inner)]) == 1; }
    BestIndexStep([first, second], 1, Depth, Size);
    assert [first, second][..2] == [first, second];
    assert Trimmed(second);
    TrimmedIsFixed(second);
  }

  /** Of two equally deep elements the one with the shorter text is kept. */
  lemma SmallerElementKept()
    ensures Simplify(JArr([JArr([JNum(1), JNum(2), JNum(3)]), JArr([JNum(9)])]))
         == JArr([JArr([JNum(9)])])
  {
    var first, second := JArr([JNum(1), JNum(2), JNum(3)]), JArr([JNum(9)]);
    EqualDepths();
    SmallerSize();
    BestIndexStep([first, second], 1, Depth, Size);
    assert [first, second][..2] == [first, second];
    assert Trimmed(second);
    TrimmedIsFixed(second);
  }

  lemma EqualDepths()
    ensures Depth(JArr([JNum(1), JNum(2), JNum(3)])) == 1 == Depth(JArr([JNum(9)]))
  {
    assert MaxDepth([JNum(3)]) == 0;
    assert MaxDepth([JNum(2), JNum(3)]) == 0;
  }

  lemma SmallerSize()
    ensures Size(JArr([JNum(9)])) == 3 < 7 == Size(JArr([JNum(1), JNum(2), JNum(3)]))
  {
    ThreeDigitsSerialized();
    OneDigitSerialized();
    Utf16LengthInBmp("[1,2,3]");
  }

  lemma OneDigitSerialized()
    ensures Serialize(JArr([JNum(9)])) == "[9]"
  {
  }

  lemma ThreeDigitsSerialized()
    ensures Serialize(JArr([JNum(1), JNum(2), JNum(3)])) == "[1,2,3]"
  {
    assert Serialize(JNum(1)) == "1";
    assert SerializeElems([JNum(2), JNum(3)]) == "2,3" by {
      assert Serialize(JNum(2)) == "2" && Serialize(JNum(3)) == "3";
    }
  }

  // The object rebuild as written assigns `result[key] = ...` on a fresh
  // object literal. For the key "__proto__" that assignment reaches the
  // prototype setter every object inherits instead of creating a property,
  // so the key is missing from the serialized result. Simplify above keeps
  // every key; the two agree on values without such a key.

  const ProtoKey: string := "__proto__"

  /** simplifyJson as written, with the prototype setter's effect. */
  function SimplifyAsWritten(v: Json): Json {
    match v
    case JArr(es) =>
      if |es| == 0 then JArr([]) else JArr([SimplifyAsWritten(es[BestIndex(es, Depth, Size)])])
    case JObj(ms) => JObj(AssignMembers(ms))
    case _ => v
  }

  /** The for...of loop assigning each simplified value under its key;
      an assignment to "__proto__" adds nothing. */
  function AssignMembers(ms: seq<(string, Json)>): seq<(string, Json)> {
    if |ms| == 0 then []
    else
      var m := ms[0];
      assert m.1 < m;
      var rest := AssignMembers(ms[1..]);
      if m.0 == ProtoKey then rest else [(m.0, SimplifyAsWritten(m.1))] + rest
  }

  /** No object anywhere in the value has the key "__proto__". */
  predicate NoProtoKey(v: Json) {
    match v
    case JArr(es) => forall i :: 0 <= i < |es| ==> NoProtoKey(es[i])
    case JObj(ms) => forall m :: m in ms ==> m.0 != ProtoKey && NoProtoKey(m.1)
    case _ => true
  }

  /** The key "__proto__" is lost by the code as written and kept by Simplify. */
  lemma ProtoKeyDropped()
    ensures SimplifyAsWritten(JObj([(ProtoKey, JNum(1))])) == JObj([])
    ensures Simplify(JObj([(ProtoKey, JNum(1))])) == JObj([(ProtoKey, JNum(1))])
  {
    var ms := [(ProtoKey, JNum(1))];
    assert ms[1..] == [];
    assert AssignMembers(ms) == [];
    assert SimplifyMembers(ms) == [(ProtoKey, Simplify(JNum(1)))];
  }

  /** Without a "__proto__" key the code as written computes Simplify. */
  lemma {:induction false} AsWrittenAgrees(v: Json)
    requires NoProtoKey(v)
    ensures SimplifyAsWritten(v) == Simplify(v)
    decreases v
  {
    match v
    case JArr(es) =>
      if |es| > 0 {
        AsWrittenAgrees(es[BestIndex(es, Depth, Size)]);
      }
    case JObj(ms) =>
      AssignMembersAgree(ms);
    case _ =>
  }

  lemma {:induction false} AssignMembersAgree(ms: seq<(string, Json)>)
    requires forall m :: m in ms ==> m.0 != ProtoKey && NoProtoKey(m.1)
    ensures AssignMembers(ms) == SimplifyMembers(ms)
    decreases ms
  {
    if |ms| > 0 {
      var m := ms[0];
      assert m in ms;
      assert m.1 < m;
      AsWrittenAgrees(m.1);
      assert forall x :: x in ms[1..] ==> x in ms;
      AssignMembersAgree(ms[1..]);
    }
  }
}
