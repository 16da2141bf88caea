/** The part of a struct declaration the macro looks at: its member list.
    A member is either a variable declaration (`let`/`var`, with one or more
    pattern bindings) or something else; a binding's pattern is either a
    plain identifier or some other pattern (tuple, wildcard, ...). */
module Syntax {
  import opened Wrappers

  datatype Pattern = IdentifierPattern(identifier: string) | OtherPattern

  datatype PatternBinding = PatternBinding(pattern: Pattern)

  datatype MemberDecl = VariableDecl(bindings: seq<PatternBinding>) | OtherMember

  /** The declaration the macro is attached to. Only a struct is accepted. */
  datatype DeclGroup = StructDecl(members: seq<MemberDecl>) | OtherDeclGroup

  /** The property name a member contributes: the identifier of the FIRST
      binding of a variable declaration, and nothing for any other member. */
  function PropertyName(m: MemberDecl): Option<string> {
    match m
    case VariableDecl(bindings) =>
      if |bindings| > 0 && bindings[0].pattern.IdentifierPattern? then
        Some(bindings[0].pattern.identifier)
      else
        None
    case OtherMember => None
  }

  /** The property names of a member list, in declaration order; no member
      contributes more than one. */
  function PropertyNames(members: seq<MemberDecl>): (names: seq<string>)
    ensures |names| <= |members|
  {
    if members == [] then []
    else
      match PropertyName(members[0])
      case Some(n) => [n] + PropertyNames(members[1..])
      case None => PropertyNames(members[1..])
  }

  lemma {:induction false} PropertyNamesConcat(a: seq<MemberDecl>, b: seq<MemberDecl>)
    ensures PropertyNames(a + b) == PropertyNames(a) + PropertyNames(b)
  {
    if a == [] {
      assert a + b == b;
    } else {
      assert (a + b)[0] == a[0];
      assert (a + b)[1..] == a[1..] + b;
      PropertyNamesConcat(a[1..], b);
    }
  }

  /** A name is listed exactly when some member contributes it. */
  lemma {:induction false} PropertyNamesMembership(members: seq<MemberDecl>, n: string)
    ensures n in PropertyNames(members) <==>
            exists i :: 0 <= i < |members| && PropertyName(members[i]) == Some(n)
  {
    if members != [] {
      PropertyNamesMembership(members[1..], n);
      if exists i :: 0 <= i < |members[1..]| && PropertyName(members[1..][i]) == Some(n) {
        var i :| 0 <= i < |members[1..]| && PropertyName(members[1..][i]) == Some(n);
        assert members[1..][i] == members[i + 1];
      }
      if exists i :: 0 <= i < |members| && PropertyName(members[i]) == Some(n) {
        var i :| 0 <= i < |members| && PropertyName(members[i]) == Some(n);
        if i > 0 {
          assert members[1..][i - 1] == members[i];
        }
      }
    }
  }

  /** After looking at the first `upTo` members: `names` are their property
      names, and `positions` says where each came from, in rising order,
      covering every member that contributes one. */
  ghost predicate Extracted(members: seq<MemberDecl>, upTo: nat, names: seq<string>, positions: seq<nat>) {
    && upTo <= |members|
    && names == PropertyNames(members[..upTo])
    && |positions| == |names|
    && (forall k :: 0 <= k < |positions| ==>
          positions[k] < upTo && PropertyName(members[positions[k]]) == Some(names[k]))
    && (forall j, k :: 0 <= j < k < |positions| ==> positions[j] < positions[k])
    && (forall p :: 0 <= p < upTo && PropertyName(members[p]).Some? ==> p in positions)
  }

  /** One turn of the member loop keeps `Extracted`. */
  lemma ExtractStep(members: seq<MemberDecl>, i: nat, names: seq<string>, positions: seq<nat>)
    requires i < |members| && Extracted(members, i, names, positions)
    ensures PropertyName(members[i]).Some? ==>
              Extracted(members, i + 1, names + [PropertyName(members[i]).value], positions + [i])
    ensures PropertyName(members[i]).None? ==> Extracted(members, i + 1, names, positions)
  {
    assert members[..i + 1] == members[..i] + [members[i]];
    PropertyNamesConcat(members[..i], [members[i]]);
    match PropertyName(members[i])
    case Some(n) =>
      assert PropertyNames([members[i]]) == [n];
      var positions' := positions + [i];
      assert positions'[|positions|] == i;
      assert forall p :: 0 <= p < i && p in positions ==> p in positions';
    case None =>
      assert PropertyNames([members[i]]) == [];
  }

  /** The member loop of the macro, with the position each name came from:
      the positions rise strictly (declaration order), each names a member
      contributing that name, and every contributing member is listed. */
  method ExtractPropertyNames(members: seq<MemberDecl>)
    returns (names: seq<string>, positions: seq<nat>)
    ensures names == PropertyNames(members)
    ensures |positions| == |names|
    ensures forall k :: 0 <= k < |positions| ==>
              positions[k] < |members| && PropertyName(members[positions[k]]) == Some(names[k])
    ensures forall j, k :: 0 <= j < k < |positions| ==> positions[j] < positions[k]
    ensures forall i :: 0 <= i < |members| && PropertyName(members[i]).Some? ==> i in positions
  {
    names := [];
    positions := [];
    for i := 0 to |members|
      invariant Extracted(members, i, names, positions)
    {
      ExtractStep(members, i, names, positions);
      var name := PropertyName(members[i]);
      if name.Some? {
        names := names + [name.value];
        positions := positions + [i];
      }
    }
    assert members[..|members|] == members;
  }
}
