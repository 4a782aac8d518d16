/** JSON with the member order that serde_json keeps, and what it means as an unordered value. */
module OrderedJson {
  import opened Json

  datatype Node =
    | Scalar(scalar: Value)
    | Items(items: seq<Node>)
    | Members(members: seq<Member>)

  datatype Member = Member(name: string, node: Node)

  /** Scalars are scalars, and names occur once in an object. */
  predicate Valid(n: Node)
    decreases n
  {
    match n
    case Scalar(v) => !v.Obj? && !v.Arr?
    case Items(items) => forall i :: 0 <= i < |items| ==> Valid(items[i])
    case Members(ms) => DistinctNames(ms) && forall i :: 0 <= i < |ms| ==> Valid(ms[i].node)
  }

  predicate DistinctNames(ms: seq<Member>) {
    forall i, j :: 0 <= i < j < |ms| ==> ms[i].name != ms[j].name
  }

  function NamesOf(ms: seq<Member>): seq<string> {
    seq(|ms|, i requires 0 <= i < |ms| => ms[i].name)
  }

  /** The value without its member order. */
  function Erase(n: Node): Value
    decreases n
  {
    match n
    case Scalar(v) => v
    case Items(items) => Arr(seq(|items|, i requires 0 <= i < |items| => Erase(items[i])))
    case Members(ms) => Obj(EraseMembers(ms))
  }

  function EraseMembers(ms: seq<Member>): map<string, Value>
    decreases ms
  {
    if ms == [] then map[]
    else EraseMembers(ms[1..]) + map[ms[0].name := Erase(ms[0].node)]
  }

  lemma {:induction false} EraseNames(ms: seq<Member>)
    ensures forall k :: k in EraseMembers(ms) <==> exists i :: 0 <= i < |ms| && ms[i].name == k
  {
    if ms != [] {
      EraseNames(ms[1..]);
      forall k
        ensures k in EraseMembers(ms) <==> exists i :: 0 <= i < |ms| && ms[i].name == k
      {
        if i :| 0 <= i < |ms| && ms[i].name == k {
          assert i > 0 ==> ms[1..][i - 1].name == k;
        }
        if j :| 0 <= j < |ms[1..]| && ms[1..][j].name == k {
          assert ms[j + 1].name == k;
        }
      }
    }
  }

  lemma {:induction false} EraseAt(ms: seq<Member>, i: nat)
    requires DistinctNames(ms) && i < |ms|
    ensures ms[i].name in EraseMembers(ms) && EraseMembers(ms)[ms[i].name] == Erase(ms[i].node)
  {
    if i > 0 {
      assert ms[1..][i - 1] == ms[i];
      EraseAt(ms[1..], i - 1);
    }
  }

  lemma EraseSingle(m: Member)
    ensures Erase(Members([m])) == Obj(map[m.name := Erase(m.node)])
  {
    assert [m][1..] == [];
    assert EraseMembers([m]) == EraseMembers([]) + map[m.name := Erase(m.node)];
  }

  /** An object has as many members whichever way it is read. */
  lemma {:induction false} OneMember(ms: seq<Member>)
    requires Valid(Members(ms))
    ensures |EraseMembers(ms)| == |ms|
    decreases |ms|
  {
    if ms != [] {
      var rest := EraseMembers(ms[1..]);
      assert Valid(Members(ms[1..]));
      OneMember(ms[1..]);
      EraseNames(ms[1..]);
      assert ms[0].name !in rest;
      assert EraseMembers(ms).Keys == rest.Keys + {ms[0].name};
    }
  }
}
