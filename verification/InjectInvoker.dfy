/** Resolving the arguments of a function from a list of providers, as the dependency-injecting invoker does. */
module InjectInvoker {

  // A struct field that cannot be set is left alone
  datatype Field = Field(settable: bool, t: Type)

  // The kinds an argument may have; a named type stands for the tree of its fields
  datatype Type = Interface(id: nat) | Struct(fields: seq<Field>) | Ptr(elem: Type) | Other

  // A provider is known by the interfaces its type implements
  datatype Provider = Provider(name: nat, impls: set<nat>)

  datatype Value = Given(p: Provider) | Built(fields: seq<Value>) | Zero

  // A pointer to anything but a struct makes the reflection panic
  datatype Failure = NotFound | Unsupported | Panicked | BadReturns

  datatype Resolution<T> = Resolved(value: T) | Failed(error: Failure)

  // The first provider that implements the interface
  function FirstImpl(ps: seq<Provider>, id: nat): Resolution<Value> {
    if ps == [] then Failed(NotFound) else if id in ps[0].impls then Resolved(Given(ps[0])) else FirstImpl(ps[1..], id)
  }

  function ForType(ps: seq<Provider>, t: Type): Resolution<Value>
    decreases t, 0
  {
    match t
    case Interface(id) => FirstImpl(ps, id)
    case Struct(fields) => AsStruct(ForFields(ps, fields))
    case Ptr(elem) => if elem.Struct? then AsStruct(ForFields(ps, elem.fields)) else Failed(Panicked)
    case Other => Failed(Unsupported)
  }

  function AsStruct(r: Resolution<seq<Value>>): Resolution<Value> {
    if r.Resolved? then Resolved(Built(r.value)) else Failed(r.error)
  }

  // A field that is not settable or not of a supported kind keeps its zero value
  function ForField(ps: seq<Provider>, f: Field): Resolution<Value>
    decreases f
  {
    if !f.settable then Resolved(Zero)
    else
      var r := ForType(ps, f.t);
      if r == Failed(Unsupported) then Resolved(Zero) else r
  }

  function ForFields(ps: seq<Provider>, fields: seq<Field>): Resolution<seq<Value>>
    decreases fields
  {
    if fields == [] then Resolved([])
    else
      var front := ForFields(ps, fields[..|fields| - 1]);
      if front.Failed? then front
      else
        var r := ForField(ps, fields[|fields| - 1]);
        if r.Failed? then Failed(r.error) else Resolved(front.value + [r.value])
  }

  function ForArgs(ps: seq<Provider>, args: seq<Type>): Resolution<seq<Value>> {
    if args == [] then Resolved([])
    else
      var front := ForArgs(ps, args[..|args| - 1]);
      if front.Failed? then front
      else
        var r := ForType(ps, args[|args| - 1]);
        if r.Failed? then Failed(r.error) else Resolved(front.value + [r.value])
  }

  // ----- What resolution depends on

  function Implemented(ps: seq<Provider>): set<nat> {
    set p, id | p in ps && id in p.impls :: id
  }

  lemma {:induction false} FirstImplFound(ps: seq<Provider>, id: nat)
    ensures FirstImpl(ps, id).Resolved? <==> id in Implemented(ps)
    ensures var r := FirstImpl(ps, id); r.Resolved? ==> r.value.Given? && r.value.p in ps && id in r.value.p.impls
    ensures FirstImpl(ps, id).Failed? ==> FirstImpl(ps, id).error == NotFound
  {
    if ps != [] {
      FirstImplFound(ps[1..], id);
      assert ps == [ps[0]] + ps[1..];
      assert id in ps[0].impls ==> ps[0] in ps;
    }
  }

  /** The provider injected for an interface is the first that implements it. */
  lemma {:induction false} FirstImplIsFirst(ps: seq<Provider>, id: nat, i: nat)
    requires i < |ps| && id in ps[i].impls && forall j :: 0 <= j < i ==> id !in ps[j].impls
    ensures FirstImpl(ps, id) == Resolved(Given(ps[i]))
  {
    if i > 0 {
      FirstImplIsFirst(ps[1..], id, i - 1);
    }
  }

  // Resolvable without unsupported kinds or panics getting in the way
  predicate Supported(t: Type)
    decreases t
  {
    match t
    case Interface(_) => true
    case Struct(fields) => forall i :: 0 <= i < |fields| ==> SupportedField(fields[i])
    case Ptr(elem) => elem.Struct? && Supported(elem)
    case Other => false
  }

  predicate SupportedField(f: Field)
    decreases f
  {
    !f.settable || f.t.Other? || Supported(f.t)
  }

  // The interfaces a supported type needs
  function Needs(t: Type): set<nat>
    decreases t
  {
    match t
    case Interface(id) => {id}
    case Struct(fields) => set i, id | 0 <= i < |fields| && id in FieldNeeds(fields[i]) :: id
    case Ptr(elem) => Needs(elem)
    case Other => {}
  }

  function FieldNeeds(f: Field): set<nat>
    decreases f
  {
    if f.settable then Needs(f.t) else {}
  }

  function ArgNeeds(args: seq<Type>): set<nat> {
    set i, id | 0 <= i < |args| && id in Needs(args[i]) :: id
  }

  predicate FieldResolvable(ps: seq<Provider>, f: Field) {
    SupportedField(f) && FieldNeeds(f) <= Implemented(ps)
  }

  lemma {:induction false} FieldsResolveIff(ps: seq<Provider>, fields: seq<Field>)
    ensures ForFields(ps, fields).Resolved? <==> forall i :: 0 <= i < |fields| ==> FieldResolvable(ps, fields[i])
    ensures ForFields(ps, fields) == Failed(NotFound) ==>
              exists i :: 0 <= i < |fields| && !(FieldNeeds(fields[i]) <= Implemented(ps))
    decreases fields
  {
    if fields != [] {
      var last := |fields| - 1;
      FieldsResolveIff(ps, fields[..last]);
      FieldResolvesIff(ps, fields[last]);
      assert forall i :: 0 <= i < last ==> fields[..last][i] == fields[i];
      assert (forall i :: 0 <= i < |fields| ==> FieldResolvable(ps, fields[i])) <==>
             (forall i :: 0 <= i < last ==> FieldResolvable(ps, fields[..last][i])) &&
                 FieldResolvable(ps, fields[last]);
    }
  }

  lemma {:induction false} FieldResolvesIff(ps: seq<Provider>, f: Field)
    ensures ForField(ps, f).Resolved? <==> FieldResolvable(ps, f)
    ensures ForField(ps, f) == Failed(NotFound) ==> !(FieldNeeds(f) <= Implemented(ps))
    decreases f
  {
    assert f.t.Other? ==> Needs(f.t) == {};
    if f.settable && !f.t.Other? {
      NotUnsupported(ps, f.t);
      ResolvesIff(ps, f.t);
    }
  }

  /**
    A type resolves exactly when it has no unsupported part in the way and every interface it needs is implemented
    by some provider; the failure that waits for other providers means that some interface is not.
   */
  lemma {:induction false} ResolvesIff(ps: seq<Provider>, t: Type)
    ensures ForType(ps, t).Resolved? <==> Supported(t) && Needs(t) <= Implemented(ps)
    ensures ForType(ps, t) == Failed(NotFound) ==> !(Needs(t) <= Implemented(ps))
    decreases t, 0
  {
    match t
    case Interface(id) =>
      FirstImplFound(ps, id);
    case Struct(fields) =>
      FieldsResolveIff(ps, fields);
      assert forall i :: 0 <= i < |fields| ==> FieldNeeds(fields[i]) <= Needs(t);
    case Ptr(elem) =>
      if elem.Struct? {
        FieldsResolveIff(ps, elem.fields);
        assert forall i :: 0 <= i < |elem.fields| ==> FieldNeeds(elem.fields[i]) <= Needs(elem);
      }
    case Other =>
  }

  predicate SupportedArgs(args: seq<Type>) {
    forall i :: 0 <= i < |args| ==> Supported(args[i])
  }

  lemma {:induction false} ArgsResolveIff(ps: seq<Provider>, args: seq<Type>)
    ensures ForArgs(ps, args).Resolved? <==> SupportedArgs(args) && ArgNeeds(args) <= Implemented(ps)
    ensures ForArgs(ps, args) == Failed(NotFound) ==> !(ArgNeeds(args) <= Implemented(ps))
    ensures SupportedArgs(args) && ForArgs(ps, args).Failed? ==> ForArgs(ps, args).error == NotFound
  {
    if args != [] {
      var last := |args| - 1;
      ArgsResolveIff(ps, args[..last]);
      ResolvesIff(ps, args[last]);
      if Supported(args[last]) {
        SupportedFails(ps, args[last]);
      }
      assert ArgNeeds(args) == ArgNeeds(args[..last]) + Needs(args[last]);
      assert SupportedArgs(args) <==> SupportedArgs(args[..last]) && Supported(args[last]);
    }
  }

  // A supported type fails only for want of a provider
  lemma {:induction false} SupportedFails(ps: seq<Provider>, t: Type)
    requires Supported(t)
    ensures ForType(ps, t).Failed? ==> ForType(ps, t).error == NotFound
    decreases t, 0
  {
    match t
    case Interface(id) =>
      FirstImplFound(ps, id);
    case Struct(fields) =>
      SupportedFieldsFail(ps, fields);
    case Ptr(elem) =>
      SupportedFieldsFail(ps, elem.fields);
  }

  lemma {:induction false} SupportedFieldsFail(ps: seq<Provider>, fields: seq<Field>)
    requires forall i :: 0 <= i < |fields| ==> SupportedField(fields[i])
    ensures ForFields(ps, fields).Failed? ==> ForFields(ps, fields).error == NotFound
    decreases fields
  {
    if fields != [] {
      SupportedFieldsFail(ps, fields[..|fields| - 1]);
      SupportedFieldFails(ps, fields[|fields| - 1]);
    }
  }

  lemma {:induction false} SupportedFieldFails(ps: seq<Provider>, f: Field)
    requires SupportedField(f)
    ensures ForField(ps, f).Failed? ==> ForField(ps, f).error == NotFound
    decreases f
  {
    if f.settable && !f.t.Other? {
      SupportedFails(ps, f.t);
    }
  }

  // ----- What is injected

  // Interfaces hold a provider that implements them; fields without one hold their zero value
  predicate Fits(ps: seq<Provider>, t: Type, v: Value)
    decreases t, 0
  {
    match t
    case Interface(id) => v.Given? && v.p in ps && id in v.p.impls
    case Struct(fields) => v.Built? && FitsFields(ps, fields, v.fields)
    case Ptr(elem) => elem.Struct? && v.Built? && FitsFields(ps, elem.fields, v.fields)
    case Other => false
  }

  predicate FitsFields(ps: seq<Provider>, fields: seq<Field>, vs: seq<Value>)
    decreases fields
  {
    |vs| == |fields| && forall i :: 0 <= i < |fields| ==> FitsField(ps, fields[i], vs[i])
  }

  predicate FitsField(ps: seq<Provider>, f: Field, v: Value)
    decreases f
  {
    if !f.settable || f.t.Other? then v == Zero else Fits(ps, f.t, v)
  }

  /** Whatever resolves is filled in with providers of the right interfaces, at every depth. */
  lemma {:induction false} ResolvedFits(ps: seq<Provider>, t: Type)
    requires ForType(ps, t).Resolved?
    ensures Fits(ps, t, ForType(ps, t).value)
    decreases t, 0
  {
    match t
    case Interface(id) =>
      FirstImplFound(ps, id);
    case Struct(fields) =>
      ResolvedFieldsFit(ps, fields);
    case Ptr(elem) =>
      ResolvedFieldsFit(ps, elem.fields);
  }

  lemma {:induction false} ResolvedFieldsFit(ps: seq<Provider>, fields: seq<Field>)
    requires ForFields(ps, fields).Resolved?
    ensures FitsFields(ps, fields, ForFields(ps, fields).value)
    decreases fields
  {
    if fields != [] {
      var last := |fields| - 1;
      ResolvedFieldsFit(ps, fields[..last]);
      ResolvedFieldFits(ps, fields[last]);
      var vs := ForFields(ps, fields).value;
      forall i | 0 <= i < |fields| ensures FitsField(ps, fields[i], vs[i]) {
        assert i < last ==> fields[..last][i] == fields[i];
      }
    }
  }

  lemma {:induction false} ResolvedFieldFits(ps: seq<Provider>, f: Field)
    requires ForField(ps, f).Resolved?
    ensures FitsField(ps, f, ForField(ps, f).value)
    decreases f
  {
    if f.settable && !f.t.Other? {
      NotUnsupported(ps, f.t);
      ResolvedFits(ps, f.t);
    }
  }

  lemma NotUnsupported(ps: seq<Provider>, t: Type)
    requires !t.Other?
    ensures ForType(ps, t) != Failed(Unsupported)
  {
    match t
    case Interface(id) =>
      FirstImplFound(ps, id);
    case Struct(fields) =>
      FieldsNotUnsupported(ps, fields);
    case Ptr(elem) =>
      if elem.Struct? {
        FieldsNotUnsupported(ps, elem.fields);
      }
  }

  lemma {:induction false} FieldsNotUnsupported(ps: seq<Provider>, fields: seq<Field>)
    ensures ForFields(ps, fields) != Failed(Unsupported)
  {
    if fields != [] {
      FieldsNotUnsupported(ps, fields[..|fields| - 1]);
    }
  }

  // Resolving arguments never complains about return values
  lemma {:induction false} NotBadReturns(ps: seq<Provider>, t: Type)
    ensures ForType(ps, t) != Failed(BadReturns)
    decreases t, 0
  {
    match t
    case Interface(id) =>
      FirstImplFound(ps, id);
    case Struct(fields) =>
      FieldsNotBadReturns(ps, fields);
    case Ptr(elem) =>
      if elem.Struct? {
        FieldsNotBadReturns(ps, elem.fields);
      }
    case Other =>
  }

  lemma {:induction false} FieldsNotBadReturns(ps: seq<Provider>, fields: seq<Field>)
    ensures ForFields(ps, fields) != Failed(BadReturns)
    decreases fields
  {
    if fields != [] {
      FieldsNotBadReturns(ps, fields[..|fields| - 1]);
      FieldNotBadReturns(ps, fields[|fields| - 1]);
    }
  }

  lemma {:induction false} FieldNotBadReturns(ps: seq<Provider>, f: Field)
    ensures ForField(ps, f) != Failed(BadReturns)
    decreases f
  {
    NotBadReturns(ps, f.t);
  }

  lemma {:induction false} ArgsNotBadReturns(ps: seq<Provider>, args: seq<Type>)
    ensures ForArgs(ps, args) != Failed(BadReturns)
  {
    if args != [] {
      ArgsNotBadReturns(ps, args[..|args| - 1]);
      NotBadReturns(ps, args[|args| - 1]);
    }
  }

  // ----- The invoker

  class Invoker {
    var providers: seq<Provider>

    constructor (providers: seq<Provider>)
      ensures this.providers == providers
    {
      this.providers := providers;
    }

    method AddProvider(p: Provider)
      modifies this
      ensures providers == old(providers) + [p]
    {
      providers := providers + [p];
    }

    method GetProviderForInterface(id: nat) returns (r: Resolution<Value>)
      ensures r == FirstImpl(providers, id)
    {
      for i := 0 to |providers|
        invariant FirstImpl(providers, id) == FirstImpl(providers[i..], id)
      {
        if id in providers[i].impls {
          return Resolved(Given(providers[i]));
        }
        assert providers[i..][1..] == providers[i + 1..];
      }
      return Failed(NotFound);
    }

    method GetProviderForType(t: Type) returns (r: Resolution<Value>)
      ensures r == ForType(providers, t)
      decreases t, 1
    {
      match t {
        case Interface(id) =>
          r := GetProviderForInterface(id);
        case Struct(fields) =>
          var vs := PopulateFields(fields);
          r := AsStruct(vs);
        case Ptr(elem) =>
          if !elem.Struct? {
            return Failed(Panicked);
          }
          var vs := PopulateFields(elem.fields);
          r := AsStruct(vs);
        case Other =>
          r := Failed(Unsupported);
      }
    }

    method PopulateFields(fields: seq<Field>) returns (r: Resolution<seq<Value>>)
      ensures r == ForFields(providers, fields)
      decreases fields
    {
      var vs: seq<Value> := [];
      for i := 0 to |fields|
        invariant ForFields(providers, fields[..i]) == Resolved(vs)
      {
        assert fields[..i + 1][..i] == fields[..i];
        var v := GetProviderForField(fields[i]);
        if v.Failed? {
          StopsAt(providers, fields, i);
          return Failed(v.error);
        }
        vs := vs + [v.value];
      }
      assert fields[..|fields|] == fields;
      return Resolved(vs);
    }

    method GetProviderForField(f: Field) returns (r: Resolution<Value>)
      ensures r == ForField(providers, f)
      decreases f
    {
      if !f.settable {
        return Resolved(Zero);
      }
      r := GetProviderForType(f.t);
      if r == Failed(Unsupported) {
        r := Resolved(Zero);
      }
    }

    method GetArgValues(args: seq<Type>) returns (r: Resolution<seq<Value>>)
      ensures r == ForArgs(providers, args)
    {
      var vs: seq<Value> := [];
      for i := 0 to |args|
        invariant ForArgs(providers, args[..i]) == Resolved(vs)
      {
        assert args[..i + 1][..i] == args[..i];
        var v := GetProviderForType(args[i]);
        if v.Failed? {
          ArgsStopAt(providers, args, i + 1);
          return Failed(v.error);
        }
        vs := vs + [v.value];
      }
      assert args[..|args|] == args;
      return Resolved(vs);
    }
  }

  lemma {:induction false} ArgsStopAt(ps: seq<Provider>, args: seq<Type>, n: nat)
    requires n <= |args| && ForArgs(ps, args[..n]).Failed?
    ensures ForArgs(ps, args) == ForArgs(ps, args[..n])
  {
    if n == |args| {
      assert args[..n] == args;
    } else {
      var last := |args| - 1;
      assert args[..last][..n] == args[..n];
      ArgsStopAt(ps, args[..last], n);
    }
  }

  lemma StopsAt(ps: seq<Provider>, fields: seq<Field>, i: nat)
    requires i < |fields| && ForFields(ps, fields[..i]).Resolved? && ForField(ps, fields[i]).Failed?
    ensures ForFields(ps, fields) == Failed(ForField(ps, fields[i]).error)
  {
    assert fields[..i + 1][..i] == fields[..i];
    FieldsStopAt(ps, fields, i + 1);
  }

  lemma {:induction false} FieldsStopAt(ps: seq<Provider>, fields: seq<Field>, n: nat)
    requires n <= |fields| && ForFields(ps, fields[..n]).Failed?
    ensures ForFields(ps, fields) == ForFields(ps, fields[..n])
  {
    if n == |fields| {
      assert fields[..n] == fields;
    } else {
      var last := |fields| - 1;
      assert fields[..last][..n] == fields[..n];
      FieldsStopAt(ps, fields[..last], n);
    }
  }
}
