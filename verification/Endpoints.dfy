/** The DNSRecord endpoint of pkg/apis/v1alpha1/dnsrecord_types.go: a value `Endpoint`, and the
    object `EndpointObject` that the controllers share by pointer and update in place. */
module Endpoints {
  import opened Options

  const A := "A"
  const CNAME := "CNAME"
  const WEIGHT := "weight"
  const GEO_CODE := "geo-code"

  datatype Property = Property(name: string, value: string)

  datatype Endpoint = Endpoint(
    dnsName: string,
    targets: seq<string>,
    recordType: string,
    setIdentifier: string,
    ttl: int,
    labels: map<string, string>,
    props: seq<Property>)
  {
    function SetId(): string {
      dnsName + setIdentifier
    }

    function Get(name: string): Option<string> {
      Lookup(props, name)
    }

    function With(name: string, value: string): Endpoint {
      this.(props := Assign(props, name, value))
    }
  }

  const NEW_ENDPOINT := Endpoint("", [], "", "", 0, map[], [])

  function SetIdOf(e: Endpoint): string {
    e.SetId()
  }

  /** The value of the first property called name. */
  function Lookup(props: seq<Property>, name: string): Option<string> {
    if props == [] then None
    else if props[0].name == name then Some(props[0].value)
    else Lookup(props[1..], name)
  }

  /** The list after setting name: the first property of that name changes, or one is added. */
  function Assign(props: seq<Property>, name: string, value: string): seq<Property> {
    if props == [] then [Property(name, value)]
    else if props[0].name == name then [Property(name, value)] + props[1..]
    else [props[0]] + Assign(props[1..], name, value)
  }

  /** The list without any property called name. */
  function Erase(props: seq<Property>, name: string): seq<Property> {
    if props == [] then []
    else (if props[0].name == name then [] else [props[0]]) + Erase(props[1..], name)
  }

  /** The first property of the name is at this place. */
  ghost predicate FirstAt(props: seq<Property>, name: string, i: int) {
    0 <= i < |props| && props[i].name == name && forall j | 0 <= j < i :: props[j].name != name
  }

  lemma {:induction false} LookupExactly(props: seq<Property>, name: string)
    ensures Lookup(props, name).None? <==> forall i | 0 <= i < |props| :: props[i].name != name
    ensures forall i | FirstAt(props, name, i) :: Lookup(props, name) == Some(props[i].value)
  {
    if props != [] && props[0].name != name {
      var rest := props[1..];
      LookupExactly(rest, name);
      forall i | FirstAt(props, name, i) ensures Lookup(props, name) == Some(props[i].value) {
        assert forall j | 0 <= j < i - 1 :: rest[j] == props[j + 1];
        assert FirstAt(rest, name, i - 1);
      }
      if forall i | 0 <= i < |rest| :: rest[i].name != name {
        forall i | 0 <= i < |props| ensures props[i].name != name {
          assert i > 0 ==> props[i] == rest[i - 1];
        }
      }
      if forall i | 0 <= i < |props| :: props[i].name != name {
        assert forall i | 0 <= i < |rest| :: rest[i] == props[i + 1];
      }
    }
  }

  /** Setting a property changes that property and no other. */
  lemma {:induction false} LookupAssign(props: seq<Property>, name: string, value: string, other: string)
    ensures Lookup(Assign(props, name, value), other) ==
            if other == name then Some(value) else Lookup(props, other)
  {
    if props != [] {
      if props[0].name == name {
        assert ([Property(name, value)] + props[1..])[1..] == props[1..];
      } else {
        LookupAssign(props[1..], name, value, other);
        assert ([props[0]] + Assign(props[1..], name, value))[1..] == Assign(props[1..], name, value);
      }
    }
  }

  /** Setting a property to the value it has changes nothing: not even the order of the list. */
  lemma {:induction false} AssignCurrent(props: seq<Property>, name: string, value: string)
    requires Lookup(props, name) == Some(value)
    ensures Assign(props, name, value) == props
  {
    if props[0].name == name {
      assert props == [props[0]] + props[1..];
    } else {
      AssignCurrent(props[1..], name, value);
      assert props == [props[0]] + props[1..];
    }
  }

  /** Deleting a property removes every occurrence of it and keeps every other property. */
  lemma {:induction false} LookupErase(props: seq<Property>, name: string, other: string)
    ensures Lookup(Erase(props, name), other) == if other == name then None else Lookup(props, other)
  {
    if props != [] {
      LookupErase(props[1..], name, other);
      assert [] + Erase(props[1..], name) == Erase(props[1..], name);
      assert ([props[0]] + Erase(props[1..], name))[1..] == Erase(props[1..], name);
    }
  }

  /** A fresh property that is set and deleted again leaves the list as it was. */
  lemma {:induction false} EraseAssign(props: seq<Property>, name: string, value: string)
    requires Lookup(props, name) == None
    ensures Erase(Assign(props, name, value), name) == props
  {
    if props != [] {
      EraseAssign(props[1..], name, value);
      var a := [props[0]] + Assign(props[1..], name, value);
      assert a[1..] == Assign(props[1..], name, value);
      assert props == [props[0]] + props[1..];
    }
  }

  /** An endpoint as the controllers hold it: by reference, shared between the record that was read
      and the list that is being built. */
  class EndpointObject {
    var dnsName: string
    var targets: seq<string>
    var recordType: string
    var setIdentifier: string
    var ttl: int
    var labels: map<string, string>
    var props: seq<Property>

    constructor ()
      ensures View() == NEW_ENDPOINT
    {
      dnsName, targets, recordType, setIdentifier, ttl := "", [], "", "", 0;
      labels, props := map[], [];
    }

    constructor From(e: Endpoint)
      ensures View() == e
    {
      dnsName, targets, recordType, setIdentifier, ttl := e.dnsName, e.targets, e.recordType, e.setIdentifier, e.ttl;
      labels, props := e.labels, e.props;
    }

    function View(): Endpoint
      reads this
    {
      Endpoint(dnsName, targets, recordType, setIdentifier, ttl, labels, props)
    }

    method SetProviderSpecific(name: string, value: string)
      modifies this`props
      ensures props == Assign(old(props), name, value)
      ensures View() == old(View()).With(name, value)
    {
      hide Assign;
      var i := 0;
      while i < |props|
        invariant 0 <= i <= |props| && props == old(props)
        invariant Assign(props, name, value) == props[..i] + Assign(props[i..], name, value)
      {
        AssignStep(props, i, name, value);
        if props[i].name == name {
          props := props[..i] + [Property(name, value)] + props[i + 1..];
          return;
        }
        i := i + 1;
      }
      AssignNone(props[i..], name, value);
      props := props + [Property(name, value)];
    }

    method GetProviderSpecific(name: string) returns (r: Option<string>)
      ensures r == Lookup(props, name)
    {
      var i := 0;
      while i < |props|
        invariant 0 <= i <= |props|
        invariant Lookup(props, name) == Lookup(props[i..], name)
      {
        if props[i].name == name {
          return Some(props[i].value);
        }
        assert props[i..][1..] == props[i + 1..];
        i := i + 1;
      }
      return None;
    }

    method DeleteProviderSpecific(name: string) returns (deleted: bool)
      modifies this`props
      ensures props == Erase(old(props), name)
      ensures deleted <==> Lookup(old(props), name).Some?
    {
      hide Erase, Lookup;
      deleted := false;
      var kept: seq<Property> := [];
      var pairs := props;
      var i := 0;
      while i < |pairs|
        invariant 0 <= i <= |pairs|
        invariant Erase(pairs, name) == kept + Erase(pairs[i..], name)
        invariant Lookup(pairs, name).Some? <==> deleted || Lookup(pairs[i..], name).Some?
      {
        EraseStep(pairs, i, name);
        if pairs[i].name == name {
          deleted := true;
        } else {
          kept := kept + [pairs[i]];
        }
        i := i + 1;
      }
      EraseNone(pairs[i..], name);
      props := kept;
    }
  }

  lemma AssignNone(pairs: seq<Property>, name: string, value: string)
    requires pairs == []
    ensures Assign(pairs, name, value) == [Property(name, value)]
  {}

  lemma AssignTail(pairs: seq<Property>, i: nat, name: string, value: string)
    requires i < |pairs|
    ensures Assign(pairs[i..], name, value) ==
            if pairs[i].name == name then [Property(name, value)] + pairs[i + 1..]
            else [pairs[i]] + Assign(pairs[i + 1..], name, value)
  {
    assert pairs[i..][1..] == pairs[i + 1..];
  }

  lemma AssignStep(pairs: seq<Property>, i: nat, name: string, value: string)
    requires i < |pairs|
    ensures pairs[..i] + Assign(pairs[i..], name, value) ==
            if pairs[i].name == name then pairs[..i] + [Property(name, value)] + pairs[i + 1..]
            else pairs[..i + 1] + Assign(pairs[i + 1..], name, value)
  {
    hide Assign;
    AssignTail(pairs, i, name, value);
    Reassociate(pairs[..i], [Property(name, value)], pairs[i + 1..]);
    Reassociate(pairs[..i], [pairs[i]], Assign(pairs[i + 1..], name, value));
    assert pairs[..i + 1] == pairs[..i] + [pairs[i]];
  }

  lemma Reassociate(a: seq<Property>, b: seq<Property>, c: seq<Property>)
    ensures a + (b + c) == a + b + c
  {}

  lemma EraseNone(pairs: seq<Property>, name: string)
    requires pairs == []
    ensures Erase(pairs, name) == [] && Lookup(pairs, name) == None
  {}

  lemma EraseStep(pairs: seq<Property>, i: nat, name: string)
    requires i < |pairs|
    ensures Erase(pairs[i..], name) == (if pairs[i].name == name then [] else [pairs[i]]) + Erase(pairs[i + 1..], name)
    ensures Lookup(pairs[i..], name) == if pairs[i].name == name then Some(pairs[i].value) else
              Lookup(pairs[i + 1..], name)
  {
    assert pairs[i..][1..] == pairs[i + 1..];
  }
}
