// JSON values as Python holds them: objects keep the order their keys came in.  The canonical text
// (sorted keys, fixed separators) forgets that order and nothing else, so it is modelled by a value
// whose objects are maps.
module Json {
  import opened Basics

  datatype Json =
    | Null
    | Bool(flag: bool)
    | Number(digits: string)
    | Text(text: string)
    | List(items: seq<Json>)
    | Object(members: seq<Member>)

  datatype Member = Member(key: string, value: Json)

  datatype Canon =
    | CanonNull
    | CanonBool(flag: bool)
    | CanonNumber(digits: string)
    | CanonText(text: string)
    | CanonList(items: seq<Canon>)
    | CanonObject(members: map<string, Canon>)

  // ---------------------------------------------------------------- the canonical form

  function Canonical(j: Json): Canon
    decreases j, 0
  {
    match j
    case Null => CanonNull
    case Bool(b) => CanonBool(b)
    case Number(d) => CanonNumber(d)
    case Text(s) => CanonText(s)
    case List(items) => CanonList(CanonItems(items))
    case Object(members) => CanonObject(CanonMembers(members))
  }

  function CanonItems(items: seq<Json>): (r: seq<Canon>)
    ensures |r| == |items|
    decreases items
  {
    if items == [] then [] else [Canonical(items[0])] + CanonItems(items[1..])
  }

  function CanonMembers(members: seq<Member>): map<string, Canon>
    decreases members
  {
    if members == [] then map[]
    else CanonMembers(members[..|members| - 1])[members[|members| - 1].key := Canonical(members[|members| - 1].value)]
  }

  // ---------------------------------------------------------------- reading and writing objects

  // A repeated key keeps its last value.
  function Lookup(members: seq<Member>, key: string): Option<Json> {
    if members == [] then None
    else if members[|members| - 1].key == key then Some(members[|members| - 1].value)
    else Lookup(members[..|members| - 1], key)
  }

  function Get(j: Json, key: string): Option<Json> {
    if j.Object? then Lookup(j.members, key) else None
  }

  // Assigning to a key that is there keeps its place; a new key goes to the end.
  function Assign(members: seq<Member>, key: string, value: Json): seq<Member> {
    if members == [] then [Member(key, value)]
    else if members[|members| - 1].key == key then members[..|members| - 1] + [Member(key, value)]
    else if Lookup(members, key).None? then members + [Member(key, value)]
    else Assign(members[..|members| - 1], key, value) + [members[|members| - 1]]
  }

  function Put(j: Json, key: string, value: Json): Json
    requires j.Object?
  {
    Object(Assign(j.members, key, value))
  }

  lemma {:induction false} LookupCanonical(members: seq<Member>, key: string)
    ensures Lookup(members, key).Some? <==> key in CanonMembers(members)
    ensures Lookup(members, key).Some? ==> CanonMembers(members)[key] == Canonical(Lookup(members, key).value)
  {
    if members != [] {
      LookupCanonical(members[..|members| - 1], key);
    }
  }

  lemma Snoc(front: seq<Member>, last: Member)
    ensures CanonMembers(front + [last]) == CanonMembers(front)[last.key := Canonical(last.value)]
  {
    assert (front + [last])[..|front|] == front;
  }

  lemma UpdatesCommute<K, V>(m: map<K, V>, a: K, x: V, b: K, y: V)
    ensures a != b ==> m[a := x][b := y] == m[b := y][a := x]
    ensures m[a := x][a := y] == m[a := y]
  {
  }

  lemma AssignOfSnoc(front: seq<Member>, last: Member, key: string, value: Json)
    ensures Assign(front + [last], key, value) ==
      if last.key == key then front + [Member(key, value)]
      else if Lookup(front, key).None? then front + [last] + [Member(key, value)]
      else Assign(front, key, value) + [last]
  {
    assert (front + [last])[..|front|] == front;
  }

  lemma {:induction false} AssignCanonical(members: seq<Member>, key: string, value: Json)
    ensures CanonMembers(Assign(members, key, value)) == CanonMembers(members)[key := Canonical(value)]
  {
    if members == [] {
      Snoc([], Member(key, value));
      assert [] + [Member(key, value)] == [Member(key, value)];
    } else {
      var n := |members| - 1;
      AssignCanonical(members[..n], key, value);
      assert members == members[..n] + [members[n]];
      hide Canonical, CanonMembers, Assign, Lookup;
      AssignSnocCanonical(members[..n], members[n], key, value);
    }
  }

  lemma AssignSnocCanonical(front: seq<Member>, last: Member, key: string, value: Json)
    requires CanonMembers(Assign(front, key, value)) == CanonMembers(front)[key := Canonical(value)]
    ensures CanonMembers(Assign(front + [last], key, value)) == CanonMembers(front + [last])[key := Canonical(value)]
  {
    hide Canonical, CanonMembers, Assign, Lookup;
    AssignOfSnoc(front, last, key, value);
    Snoc(front, last);
    UpdatesCommute(CanonMembers(front), last.key, Canonical(last.value), key, Canonical(value));
    if last.key == key {
      Snoc(front, Member(key, value));
    } else if Lookup(front, key).None? {
      Snoc(front + [last], Member(key, value));
    } else {
      Snoc(Assign(front, key, value), last);
    }
  }

  lemma PutCanonical(j: Json, key: string, value: Json)
    requires j.Object?
    ensures Canonical(Put(j, key, value)) == CanonObject(CanonMembers(j.members)[key := Canonical(value)])
  {
    AssignCanonical(j.members, key, value);
  }

  // Putting back a value with the same canonical form leaves the object's canonical form alone.
  lemma PutSame(j: Json, key: string, value: Json)
    requires j.Object? && Get(j, key).Some? && Canonical(Get(j, key).value) == Canonical(value)
    ensures Canonical(Put(j, key, value)) == Canonical(j)
  {
    PutCanonical(j, key, value);
    LookupCanonical(j.members, key);
  }

  lemma {:induction false} ItemsCanonical(items: seq<Json>, i: nat)
    requires i < |items|
    ensures CanonItems(items)[i] == Canonical(items[i])
  {
    if i > 0 {
      ItemsCanonical(items[1..], i - 1);
    }
  }

  lemma ReplaceItemSame(items: seq<Json>, i: nat, value: Json)
    requires i < |items| && Canonical(items[i]) == Canonical(value)
    ensures CanonItems(items[i := value]) == CanonItems(items)
  {
    forall k | 0 <= k < |items| ensures CanonItems(items[i := value])[k] == CanonItems(items)[k] {
      ItemsCanonical(items, k);
      ItemsCanonical(items[i := value], k);
    }
  }

  // ---------------------------------------------------------------- what the canonical form decides

  // Two values with one canonical form hold the same keys with the same canonical values.
  lemma SameGet(a: Json, b: Json, key: string)
    requires Canonical(a) == Canonical(b)
    ensures Get(a, key).Some? <==> Get(b, key).Some?
    ensures Get(a, key).Some? ==> Canonical(Get(a, key).value) == Canonical(Get(b, key).value)
  {
    if a.Object? {
      LookupCanonical(a.members, key);
      LookupCanonical(b.members, key);
    }
  }

  function Keys(members: seq<Member>): set<string> {
    set m | m in members :: m.key
  }

  lemma {:induction false} KeysCanonical(members: seq<Member>)
    ensures CanonMembers(members).Keys == Keys(members)
  {
    if members != [] {
      var n := |members| - 1;
      KeysCanonical(members[..n]);
      assert members == members[..n] + [members[n]];
    } else {
      assert Keys([]) == {};
    }
  }

  lemma SameText(a: Json, b: Json)
    requires Canonical(a) == Canonical(b)
    ensures a.Text? == b.Text? && (a.Text? ==> a == b)
    ensures a.Bool? == b.Bool? && (a.Bool? ==> a == b)
    ensures a.Object? == b.Object? && (a.Object? ==> Keys(a.members) == Keys(b.members))
    ensures a.List? == b.List? && (a.List? ==> |a.items| == |b.items|)
    ensures a.Null? == b.Null?
  {
    if a.Object? {
      KeysCanonical(a.members);
      KeysCanonical(b.members);
    }
  }

  lemma SameItem(a: Json, b: Json, i: nat)
    requires Canonical(a) == Canonical(b) && a.List? && b.List? && i < |a.items| && i < |b.items|
    ensures Canonical(a.items[i]) == Canonical(b.items[i])
  {
    ItemsCanonical(a.items, i);
    ItemsCanonical(b.items, i);
  }

  // What the canonical form tells apart and what it does not: kinds and scalars, the items of a list
  // in their places, and the values of an object under their keys, in whatever order these came.
  ghost predicate SameParts(a: Json, b: Json) {
    match a
    case Null => b.Null?
    case Bool(flag) => b == Bool(flag)
    case Number(digits) => b == Number(digits)
    case Text(text) => b == Text(text)
    case List(items) =>
      && b.List? && |items| == |b.items|
      && forall i :: 0 <= i < |items| ==> Canonical(items[i]) == Canonical(b.items[i])
    case Object(_) =>
      && b.Object?
      && forall key :: SameAt(Get(a, key), Get(b, key))
  }

  ghost predicate SameAt(a: Option<Json>, b: Option<Json>) {
    (a.Some? <==> b.Some?) && (a.Some? ==> Canonical(a.value) == Canonical(b.value))
  }

  lemma CanonicalIff(a: Json, b: Json)
    ensures Canonical(a) == Canonical(b) <==> SameParts(a, b)
  {
    if a.List? && b.List? {
      ItemsIff(a.items, b.items);
    } else if a.Object? && b.Object? {
      MembersIff(a, b);
    }
  }

  lemma ItemsIff(a: seq<Json>, b: seq<Json>)
    ensures CanonItems(a) == CanonItems(b) <==>
      |a| == |b| && forall i :: 0 <= i < |a| ==> Canonical(a[i]) == Canonical(b[i])
  {
    hide Canonical, CanonItems;
    ItemsAre(a);
    ItemsAre(b);
    if |a| == |b| && forall i :: 0 <= i < |a| ==> Canonical(a[i]) == Canonical(b[i]) {
      assert CanonItems(a) == CanonItems(b);
    }
  }

  lemma ItemsAre(items: seq<Json>)
    ensures |CanonItems(items)| == |items|
    ensures forall i :: 0 <= i < |items| ==> CanonItems(items)[i] == Canonical(items[i])
  {
    hide Canonical;
    forall i | 0 <= i < |items| ensures CanonItems(items)[i] == Canonical(items[i]) {
      ItemsCanonical(items, i);
    }
  }

  lemma MembersIff(a: Json, b: Json)
    requires a.Object? && b.Object?
    ensures CanonMembers(a.members) == CanonMembers(b.members) <==> forall key :: SameAt(Get(a, key), Get(b, key))
  {
    var m, n := CanonMembers(a.members), CanonMembers(b.members);
    forall key
      ensures SameAt(Get(a, key), Get(b, key)) <==> (key in m <==> key in n) && (key in m ==> m[key] == n[key])
    {
      LookupCanonical(a.members, key);
      LookupCanonical(b.members, key);
    }
    hide Canonical, CanonMembers, Lookup, SameAt;
    if forall key :: SameAt(Get(a, key), Get(b, key)) {
      forall key ensures key in m <==> key in n {
        assert SameAt(Get(a, key), Get(b, key));
      }
      forall key | key in m ensures m[key] == n[key] {
        assert SameAt(Get(a, key), Get(b, key));
      }
      assert m == n;
    }
  }
}
