/** JSON documents as the client sees them once the text has been parsed. */
module Json {
  import opened Wrappers

  /** Members of an object come in ascending order of their keys, each key once. */
  datatype Json =
    | Null
    | Bool(b: bool)
    | Num(n: int)
    | Str(s: string)
    | Arr(items: seq<Json>)
    | Obj(members: seq<(string, Json)>)

  /** The member with the given key; None also when the document is not an object. */
  function Find(doc: Json, key: string): Option<Json> {
    if doc.Obj? then FindMember(doc.members, key) else None
  }

  function FindMember(members: seq<(string, Json)>, key: string): Option<Json> {
    if members == [] then None
    else if members[0].0 == key then Some(members[0].1)
    else FindMember(members[1..], key)
  }

  /** The text of a string member. */
  function TextAt(doc: Json, key: string): Option<string> {
    match Find(doc, key)
    case Some(Str(s)) => Some(s)
    case _ => None
  }

  /** The document is an object whose first member of that name has the given value. */
  ghost predicate HasMember(doc: Json, key: string, value: Json) {
    doc.Obj? && exists i :: FirstMember(doc.members, i, key, value)
  }

  ghost predicate FirstMember(members: seq<(string, Json)>, i: nat, key: string, value: Json) {
    i < |members| && members[i] == (key, value) && forall j :: 0 <= j < i ==> members[j].0 != key
  }

  lemma {:induction false} FindMemberIff(members: seq<(string, Json)>, key: string, value: Json)
    ensures FindMember(members, key) == Some(value) <==> exists i :: FirstMember(members, i, key, value)
  {
    if members != [] {
      if members[0].0 == key {
        if members[0].1 == value {
          assert FirstMember(members, 0, key, value);
        }
      } else {
        FindMemberIff(members[1..], key, value);
        forall i: nat ensures FirstMember(members[1..], i, key, value) ==> FirstMember(members, i + 1, key, value) {
          MemberShift(members, i, key, value);
        }
        forall i: nat | i > 0
          ensures FirstMember(members, i, key, value) ==> FirstMember(members[1..], i - 1, key, value)
        {
          MemberShift(members, i - 1, key, value);
        }
      }
    }
  }

  lemma MemberShift(members: seq<(string, Json)>, i: nat, key: string, value: Json)
    requires members != [] && members[0].0 != key
    ensures FirstMember(members, i + 1, key, value) <==> FirstMember(members[1..], i, key, value)
  {
    assert forall j :: 0 <= j < |members[1..]| ==> members[1..][j] == members[j + 1];
    if FirstMember(members[1..], i, key, value) {
      forall j | 0 <= j < i + 1 ensures members[j].0 != key {
        assert j > 0 ==> members[j] == members[1..][j - 1];
      }
    }
  }

  /** Find finds the first member of that name, if the document is an object that has one. */
  lemma FindIff(doc: Json, key: string, value: Json)
    ensures Find(doc, key) == Some(value) <==> HasMember(doc, key, value)
  {
    if doc.Obj? {
      FindMemberIff(doc.members, key, value);
    }
  }

  lemma TextAtIff(doc: Json, key: string, text: string)
    ensures TextAt(doc, key) == Some(text) <==> HasMember(doc, key, Str(text))
  {
    FindIff(doc, key, Str(text));
  }
}
