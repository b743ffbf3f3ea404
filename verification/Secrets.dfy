/** Generation-bound secrets (dingdongditch/authentication/secrets.py:
    `MappingSecretProvider`, `SecretReference`, `SecretBinding`). */
module Secrets {
  import opened Wrappers
  import Decimal

  datatype Error = ReferenceInvalid | SecretNotFound | BindingUnavailable | BindingChanged | KeyMissing

  datatype Binding = Binding(reference: string, provider: string, generation: string)

  /** The provider's fields. A cleared name keeps its generation. */
  datatype Provider = Provider(id: string, values: map<string, string>, generation: map<string, nat>)

  ghost predicate Consistent(p: Provider) {
    p.values.Keys <= p.generation.Keys
  }

  predicate IsAlphanumeric(c: char) {
    'a' <= c <= 'z' || 'A' <= c <= 'Z' || '0' <= c <= '9'
  }

  predicate IsReferenceChar(c: char) {
    IsAlphanumeric(c) || c == '.' || c == '_' || c == ':' || c == '/' || c == '@' || c == '-'
  }

  predicate ValidReference(s: string) {
    && 1 <= |s| <= 256
    && IsAlphanumeric(s[0])
    && forall i :: 1 <= i < |s| ==> IsReferenceChar(s[i])
  }

  predicate ValidBinding(b: Binding) {
    ValidReference(b.reference) && ValidReference(b.provider) && ValidReference(b.generation)
  }

  function Label(generation: nat): string {
    "g-" + Decimal.Print(generation)
  }

  function Bind(p: Provider, reference: string): Result<Binding, Error>
    requires p.values.Keys <= p.generation.Keys
  {
    if !ValidReference(reference) then Failure(ReferenceInvalid)
    else if reference !in p.values then Failure(SecretNotFound)
    else Success(Binding(reference, p.id, Label(p.generation[reference])))
  }

  /** `None` means that the binding still holds. */
  function BindingProblem(p: Provider, reference: string, b: Binding): Option<Error>
    requires p.values.Keys <= p.generation.Keys
  {
    if !ValidReference(reference) || !ValidReference(b.reference) then Some(ReferenceInvalid)
    else if !ValidReference(b.provider) || !ValidReference(b.generation) then Some(BindingUnavailable)
    else
      match Bind(p, reference)
      case Failure(e) => Some(e)
      case Success(expected) =>
        if b.reference != reference || b.provider != expected.provider || b.generation != expected.generation then
          Some(BindingChanged)
        else None
  }

  function ResolveBound(p: Provider, reference: string, b: Binding): Result<string, Error>
    requires p.values.Keys <= p.generation.Keys
  {
    match BindingProblem(p, reference, b)
    case Some(e) => Failure(e)
    case None => Success(p.values[reference])
  }

  function Replace(p: Provider, name: string, value: string): Provider {
    p.(values := p.values[name := value],
       generation := p.generation[name := (if name in p.generation then p.generation[name] else 0) + 1])
  }

  function Clear(p: Provider): Provider {
    p.(values := map[])
  }

  /** The provider object; every call runs under its lock. */
  class MappingSecretProvider {
    const id: string
    var values: map<string, string>
    var generation: map<string, nat>

    ghost function State(): Provider
      reads this
    {
      Provider(id, values, generation)
    }

    constructor (id: string, values: map<string, string>)
      ensures State() == Provider(id, values, map name | name in values :: 1)
    {
      this.id := id;
      this.values := values;
      this.generation := map name | name in values :: 1;
    }

    method IssueBinding(reference: string) returns (r: Result<Binding, Error>)
      requires Consistent(State())
      ensures r == Bind(State(), reference)
    {
      if !ValidReference(reference) {
        return Failure(ReferenceInvalid);
      }
      if reference !in values {
        return Failure(SecretNotFound);
      }
      return Success(Binding(reference, id, Label(generation[reference])));
    }

    method AssertBound(reference: string, b: Binding) returns (problem: Option<Error>)
      requires Consistent(State())
      ensures problem == BindingProblem(State(), reference, b)
    {
      if !ValidReference(reference) || !ValidReference(b.reference) {
        return Some(ReferenceInvalid);
      }
      if !ValidReference(b.provider) || !ValidReference(b.generation) {
        return Some(BindingUnavailable);
      }
      var expected := IssueBinding(reference);
      if expected.Failure? {
        return Some(expected.error);
      }
      if b.reference != reference || b.provider != expected.value.provider || b.generation != expected.value.generation {
        return Some(BindingChanged);
      }
      return None;
    }

    method Resolve(reference: string, b: Binding) returns (r: Result<string, Error>)
      requires Consistent(State())
      ensures r == ResolveBound(State(), reference, b)
    {
      var problem := AssertBound(reference, b);
      if problem.Some? {
        return Failure(problem.value);
      }
      return Success(values[reference]);
    }

    method Rotate(name: string, value: string)
      requires Consistent(State())
      modifies this
      ensures Consistent(State()) && State() == Replace(old(State()), name, value)
    {
      values := values[name := value];
      generation := generation[name := (if name in generation then generation[name] else 0) + 1];
    }

    method Forget()
      modifies this
      ensures Consistent(State()) && State() == Clear(old(State()))
    {
      values := map[];
    }
  }

  // ---------------------------------------------------------------------------
  // Runs

  /** The calls that change the provider. */
  datatype Change = Rotation(name: string, value: string) | Clearing

  function Apply(p: Provider, c: Change): Provider {
    match c
    case Rotation(name, value) => Replace(p, name, value)
    case Clearing => Clear(p)
  }

  function After(p: Provider, run: seq<Change>): (r: Provider)
    requires p.values.Keys <= p.generation.Keys
    ensures r.values.Keys <= r.generation.Keys && r.id == p.id
  {
    if run == [] then p else Apply(After(p, run[..|run| - 1]), run[|run| - 1])
  }

  /** The change takes this name's current value away. */
  predicate Touches(c: Change, name: string) {
    c.Clearing? || c.name == name
  }

  ghost predicate Untouched(run: seq<Change>, name: string) {
    forall i :: 0 <= i < |run| ==> !Touches(run[i], name)
  }

  /** Generations only grow, and a name that is present again under an old generation was
      never touched. */
  lemma {:induction false} GenerationsOnlyGrow(p: Provider, run: seq<Change>, name: string)
    requires Consistent(p) && name in p.values
    ensures name in After(p, run).generation && After(p, run).generation[name] >= p.generation[name]
    ensures After(p, run).generation[name] == p.generation[name] && name in After(p, run).values ==>
              Untouched(run, name)
    ensures Untouched(run, name) ==>
              && After(p, run).generation[name] == p.generation[name]
              && name in After(p, run).values && After(p, run).values[name] == p.values[name]
  {
    if run != [] {
      var shorter, c := run[..|run| - 1], run[|run| - 1];
      GenerationsOnlyGrow(p, shorter, name);
      assert Untouched(run, name) <==> Untouched(shorter, name) && !Touches(c, name) by {
        assert run == shorter + [c];
      }
    }
  }

  lemma LabelsAreInjective(m: nat, n: nat)
    requires Label(m) == Label(n)
    ensures m == n
  {
    assert Label(m)[2..] == Decimal.Print(m) && Label(n)[2..] == Decimal.Print(n);
    Decimal.PrintIsInjective(m, n);
  }

  /** A binding resolves exactly for the reference it names, at the provider it names, while that
      holds a value of the generation it names; and then to that value. */
  lemma ResolvesIff(p: Provider, reference: string, b: Binding)
    requires Consistent(p)
    ensures ResolveBound(p, reference, b).Success? <==>
            && ValidReference(b.reference) && ValidReference(b.provider) && ValidReference(b.generation)
            && b.reference == reference && b.provider == p.id && reference in p.values
            && b.generation == "g-" + Decimal.Print(p.generation[reference])
    ensures ResolveBound(p, reference, b).Success? ==> ResolveBound(p, reference, b).value == p.values[reference]
    ensures Bind(p, reference) ==
            if !ValidReference(reference) then Failure(ReferenceInvalid)
            else if reference !in p.values then Failure(SecretNotFound)
            else Success(Binding(reference, p.id, "g-" + Decimal.Print(p.generation[reference])))
  {
  }

  /** Rotating sets one value and raises one generation by one; clearing takes every value and
      keeps every generation. */
  lemma ChangesAreExact(p: Provider, name: string, value: string, other: string)
    requires Consistent(p)
    ensures var r := Replace(p, name, value);
            && name in r.values && r.values[name] == value && name in r.generation
            && r.generation[name] == (if name in p.generation then p.generation[name] else 0) + 1
            && (other != name ==>
                  && (other in r.values <==> other in p.values)
                  && (other in p.values ==> r.values[other] == p.values[other])
                  && (other in r.generation <==> other in p.generation)
                  && (other in p.generation ==> r.generation[other] == p.generation[other]))
    ensures Clear(p).values == map[] && Clear(p).generation == p.generation && Clear(p).id == p.id
  {
  }

  /** A binding resolves, after any run of rotations and clearings, only for its own reference
      and only to the value that was current when it was issued. */
  lemma BindingsResolveToTheIssuedValue(p: Provider, run: seq<Change>, reference: string, asked: string, b: Binding)
    requires Consistent(p) && Bind(p, reference) == Success(b)
    requires ResolveBound(After(p, run), asked, b).Success?
    ensures asked == reference && ResolveBound(After(p, run), asked, b).value == p.values[reference]
  {
    GenerationsOnlyGrow(p, run, reference);
    LabelsAreInjective(After(p, run).generation[reference], p.generation[reference]);
  }

  /** It resolves exactly as long as its name was neither rotated nor cleared. */
  lemma BindingResolvesIff(p: Provider, run: seq<Change>, reference: string, b: Binding)
    requires Consistent(p) && Bind(p, reference) == Success(b) && ValidBinding(b)
    ensures ResolveBound(After(p, run), reference, b).Success? <==> Untouched(run, reference)
  {
    GenerationsOnlyGrow(p, run, reference);
    if ResolveBound(After(p, run), reference, b).Success? {
      LabelsAreInjective(After(p, run).generation[reference], p.generation[reference]);
    }
  }

  // ---------------------------------------------------------------------------
  // Check and read are separate lock sections

  /** A resolve call whose check runs before `between` and whose read runs after it. */
  function CheckThenRead(p: Provider, between: seq<Change>, reference: string, b: Binding): Result<string, Error>
    requires p.values.Keys <= p.generation.Keys
  {
    match BindingProblem(p, reference, b)
    case Some(e) => Failure(e)
    case None =>
      var later := After(p, between);
      if reference in later.values then Success(later.values[reference]) else Failure(KeyMissing)
  }

  /** The last change of a run that touches a name. */
  function LastTouch(run: seq<Change>, name: string): (r: Option<Change>)
    ensures r.None? <==> forall i :: 0 <= i < |run| ==> !Touches(run[i], name)
    ensures r.Some? ==> Touches(r.value, name)
    ensures r.Some? ==>
              exists i :: 0 <= i < |run| && run[i] == r.value && forall j :: i < j < |run| ==> !Touches(run[j], name)
  {
    if run == [] then None
    else
      var last := run[|run| - 1];
      if Touches(last, name) then Some(last) else LastTouch(run[..|run| - 1], name)
  }

  /** What a name holds after a run is decided by the last change that touches it. */
  lemma {:induction false} LastTouchDecides(p: Provider, run: seq<Change>, name: string)
    requires Consistent(p)
    ensures var values := After(p, run).values;
            match LastTouch(run, name)
            case None => (name in values <==> name in p.values) && (name in values ==> values[name] == p.values[name])
            case Some(Clearing) => name !in values
            case Some(Rotation(_, value)) => name in values && values[name] == value
  {
    if run != [] {
      LastTouchDecides(p, run[..|run| - 1], name);
    }
  }

  /** The split call answers as the atomic one exactly when the check already fails, when no
      change in between touches the name, or when the last one that does is a rotation to the
      value the name already had. */
  lemma SplitCallIsAtomicIff(p: Provider, between: seq<Change>, reference: string, b: Binding)
    requires Consistent(p)
    ensures CheckThenRead(p, between, reference, b) == ResolveBound(p, reference, b) <==>
            || BindingProblem(p, reference, b).Some?
            || LastTouch(between, reference).None?
            || LastTouch(between, reference) == Some(Rotation(reference, p.values[reference]))
  {
    LastTouchDecides(p, between, reference);
  }

  /** With a rotation in between, the call returns a value the binding was not issued for. */
  lemma RotationBetweenCheckAndRead(p: Provider, reference: string, b: Binding, newer: string)
    requires Consistent(p) && Bind(p, reference) == Success(b) && ValidBinding(b)
    requires newer != p.values[reference]
    ensures CheckThenRead(p, [Rotation(reference, newer)], reference, b) == Success(newer)
    ensures CheckThenRead(p, [Rotation(reference, newer)], reference, b) != ResolveBound(p, reference, b)
  {
    var run := [Rotation(reference, newer)];
    assert run[..0] == [];
    assert After(p, run) == Apply(After(p, run[..0]), run[0]);
  }
}
