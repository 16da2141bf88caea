/** The `CodingKeys` table the `@AutoCodingKeys` macro generates: one case
    per property, named after the property, whose raw value is the external
    key. The key is the `customKeys` override when there is one, otherwise
    the name converted by the `keyCase` convention (snake_case by default). */
module CodingKeys {
  import opened Wrappers
  import opened SnakeCaseConversion
  import opened Syntax

  /** The key-case knob. The camelCase conversion is not part of this model,
      so that branch carries its conversion as an opaque function value. */
  datatype KeyCase = SnakeCase | CamelCase(convert: string -> string)

  /** The macro's arguments: `customKeys` (field name to key) and `keyCase`. */
  datatype Config = Config(customKeys: map<string, string>, keyCase: KeyCase)

  /** `@AutoCodingKeys` with no arguments: no overrides, snake_case. */
  const DefaultConfig := Config(map[], SnakeCase)

  /** One generated `case <caseName> = "<rawValue>"`. */
  datatype CodingKey = CodingKey(caseName: string, rawValue: string)

  /** The generated `enum CodingKeys: String, CodingKey`. */
  datatype CodingKeysEnum = CodingKeysEnum(cases: seq<CodingKey>)

  function ConventionKey(name: string, keyCase: KeyCase): string {
    match keyCase
    case SnakeCase => Snake(name)
    case CamelCase(convert) => convert(name)
  }

  /** The external key of one property: an override wins over the convention. */
  function KeyFor(name: string, config: Config): string {
    if name in config.customKeys then config.customKeys[name] else ConventionKey(name, config.keyCase)
  }

  /** The key table for property names in declaration order: exactly one
      entry per name, at the same position, whose case name is the property
      name verbatim and whose raw value is the override when one exists and
      the converted name otherwise. */
  function Derive(names: seq<string>, config: Config): (keys: seq<CodingKey>)
    ensures |keys| == |names|
    ensures forall i :: 0 <= i < |names| ==> keys[i].caseName == names[i]
    ensures forall i :: 0 <= i < |names| && names[i] in config.customKeys ==>
              keys[i].rawValue == config.customKeys[names[i]]
    ensures forall i :: 0 <= i < |names| && names[i] !in config.customKeys ==>
              keys[i].rawValue == ConventionKey(names[i], config.keyCase)
  {
    if names == [] then []
    else [CodingKey(names[0], KeyFor(names[0], config))] + Derive(names[1..], config)
  }

  /** The message the macro stops with when attached to anything but a struct. */
  const NotAStructMessage := "The @AutoCodingKeys macro can only be applied to structs."

  /** The macro expansion with its arguments honoured. A non-struct
      declaration is rejected with `NotAStructMessage` before any table is
      built. For a struct, no member yields more than one case; the cases
      follow the property names in declaration order, one each, and each
      case's raw value is the key of the property it is named after. */
  function Expansion(decl: DeclGroup, config: Config): (r: Result<CodingKeysEnum>)
    ensures r.Success? <==> decl.StructDecl?
    ensures r.Failure? ==> r.error == NotAStructMessage
    ensures r.Success? ==> |r.value.cases| <= |decl.members|
    ensures r.Success? ==> |r.value.cases| == |PropertyNames(decl.members)|
    ensures r.Success? ==>
              forall k :: 0 <= k < |r.value.cases| ==>
                r.value.cases[k] == CodingKey(PropertyNames(decl.members)[k], KeyFor(PropertyNames(decl.members)[k], config))
    ensures r.Success? ==>
              forall k :: 0 <= k < |r.value.cases| ==>
                r.value.cases[k].rawValue == KeyFor(r.value.cases[k].caseName, config)
  {
    match decl
    case StructDecl(members) => Success(CodingKeysEnum(Derive(PropertyNames(members), config)))
    case OtherDeclGroup => Failure(NotAStructMessage)
  }

  /** The expansion as the macro's code computes it: the attribute node
      carrying `customKeys` and `keyCase` is never read, so every raw value
      is the snake_case form of the name. */
  function SnakeTable(names: seq<string>): (keys: seq<CodingKey>)
    ensures |keys| == |names|
    ensures forall i :: 0 <= i < |names| ==> keys[i].caseName == names[i] && keys[i].rawValue == Snake(names[i])
  {
    if names == [] then [] else [CodingKey(names[0], Snake(names[0]))] + SnakeTable(names[1..])
  }

  function ExpansionAsWritten(decl: DeclGroup): (r: Result<CodingKeysEnum>)
    ensures r.Success? <==> decl.StructDecl?
    ensures r.Failure? ==> r.error == NotAStructMessage
    ensures r.Success? ==> |r.value.cases| == |PropertyNames(decl.members)|
    ensures r.Success? ==>
              forall k :: 0 <= k < |r.value.cases| ==>
                r.value.cases[k] == CodingKey(PropertyNames(decl.members)[k], Snake(PropertyNames(decl.members)[k]))
    ensures r.Success? ==> forall k :: 0 <= k < |r.value.cases| ==> NoUpper(r.value.cases[k].rawValue)
  {
    match decl
    case StructDecl(members) => Success(CodingKeysEnum(SnakeTable(PropertyNames(members))))
    case OtherDeclGroup => Failure(NotAStructMessage)
  }

  /** A struct's table holds the case `n = KeyFor(n)` exactly when one of
      its members declares a property named `n`. */
  lemma ExpansionHasCaseFor(decl: DeclGroup, config: Config, n: string)
    requires decl.StructDecl?
    ensures (exists k :: 0 <= k < |Expansion(decl, config).value.cases| &&
               Expansion(decl, config).value.cases[k] == CodingKey(n, KeyFor(n, config)))
        <==> (exists i :: 0 <= i < |decl.members| && PropertyName(decl.members[i]) == Some(n))
  {
    var names := PropertyNames(decl.members);
    var cases := Derive(names, config);
    assert Expansion(decl, config).value.cases == cases;
    PropertyNamesMembership(decl.members, n);
    if n in names {
      var k :| 0 <= k < |names| && names[k] == n;
      assert cases[k].rawValue == KeyFor(n, config);
    }
    if exists k :: 0 <= k < |cases| && cases[k] == CodingKey(n, KeyFor(n, config)) {
      var k :| 0 <= k < |cases| && cases[k] == CodingKey(n, KeyFor(n, config));
      assert names[k] == n;
    }
  }

  /** The table is built member by member, so it distributes over
      concatenation of the name list. */
  lemma {:induction false} DeriveConcat(a: seq<string>, b: seq<string>, config: Config)
    ensures Derive(a + b, config) == Derive(a, config) + Derive(b, config)
  {
    if a == [] {
      assert a + b == b;
    } else {
      assert (a + b)[0] == a[0];
      assert (a + b)[1..] == a[1..] + b;
      DeriveConcat(a[1..], b, config);
    }
  }

  /** An overridden field's key does not depend on the key case. */
  lemma OverrideIgnoresKeyCase(names: seq<string>, customKeys: map<string, string>, c1: KeyCase, c2: KeyCase, i: nat)
    requires i < |names| && names[i] in customKeys
    ensures Derive(names, Config(customKeys, c1))[i] == Derive(names, Config(customKeys, c2))[i]
  {
  }

  /** Only the override entries naming a property matter: two configurations
      with the same key case whose override tables agree on the property
      names give the same table, whatever else the tables hold. */
  lemma {:induction false} UnusedOverridesHaveNoEffect(names: seq<string>, c1: Config, c2: Config)
    requires c1.keyCase == c2.keyCase
    requires forall i :: 0 <= i < |names| ==> (names[i] in c1.customKeys <==> names[i] in c2.customKeys)
    requires forall i :: 0 <= i < |names| && names[i] in c1.customKeys && names[i] in c2.customKeys ==>
               c1.customKeys[names[i]] == c2.customKeys[names[i]]
    ensures Derive(names, c1) == Derive(names, c2)
  {
    if names != [] {
      UnusedOverridesHaveNoEffect(names[1..], c1, c2);
    }
  }

  /** With the default arguments every raw value is the snake_case name, so
      no raw value holds a capital and converting it again changes nothing. */
  lemma DefaultIsSnakeCase(names: seq<string>, i: nat)
    requires i < |names|
    ensures Derive(names, DefaultConfig)[i].rawValue == Snake(names[i])
    ensures NoUpper(Derive(names, DefaultConfig)[i].rawValue)
    ensures Snake(Derive(names, DefaultConfig)[i].rawValue) == Derive(names, DefaultConfig)[i].rawValue
  {
    SnakeIdempotent(names[i]);
  }

  /** Under the default, a name without capitals is its own key: names
      already in snake_case pass through. */
  lemma DefaultKeepsSnakeCaseNames(names: seq<string>)
    requires forall i :: 0 <= i < |names| ==> NoUpper(names[i])
    ensures Derive(names, DefaultConfig) == seq(|names|, i requires 0 <= i < |names| => CodingKey(names[i], names[i]))
  {
    forall i | 0 <= i < |names| ensures Snake(names[i]) == names[i] {
      SnakeOfNoUpper(names[i]);
    }
  }

  /** The raw value of the case with the given case name, as
      `CodingKeys.<caseName>.rawValue` reads it; the first such case if the
      table holds several. */
  function RawValueOf(keys: seq<CodingKey>, caseName: string): (r: Option<string>)
    ensures r.None? <==> forall k :: 0 <= k < |keys| ==> keys[k].caseName != caseName
    ensures r.Some? ==> exists k :: 0 <= k < |keys| && keys[k] == CodingKey(caseName, r.value) &&
                          forall j :: 0 <= j < k ==> keys[j].caseName != caseName
  {
    if keys == [] then None
    else if keys[0].caseName == caseName then Some(keys[0].rawValue)
    else
      var r := RawValueOf(keys[1..], caseName);
      assert forall k :: 0 <= k < |keys[1..]| ==> keys[1..][k] == keys[k + 1];
      if r.Some? then
        var k :| 0 <= k < |keys[1..]| && keys[1..][k] == CodingKey(caseName, r.value) &&
                 forall j :: 0 <= j < k ==> keys[1..][j].caseName != caseName;
        assert keys[k + 1] == CodingKey(caseName, r.value);
        assert forall j :: 0 <= j < k + 1 ==> keys[j].caseName != caseName;
        r
      else
        r
  }

  /** Looking a property up in the table gives its key; looking up anything
      else gives nothing. This holds even when a name is declared twice, since
      every case named after a property carries that property's key. */
  lemma {:induction false} LookupDerived(names: seq<string>, config: Config, name: string)
    ensures name in names ==> RawValueOf(Derive(names, config), name) == Some(KeyFor(name, config))
    ensures name !in names ==> RawValueOf(Derive(names, config), name) == None
  {
    if names != [] {
      LookupDerived(names[1..], config, name);
      if name == names[0] {
        assert Derive(names, config)[0] == CodingKey(name, KeyFor(name, config));
      } else {
        assert Derive(names, config)[1..] == Derive(names[1..], config);
        assert name in names ==> name in names[1..];
      }
    }
  }

  /** With the default arguments, the code as written and the corrected
      expansion agree, on structs and on everything else. */
  lemma AsWrittenAgreesOnDefault(decl: DeclGroup)
    ensures ExpansionAsWritten(decl) == Expansion(decl, DefaultConfig)
  {
    if decl.StructDecl? {
      var names := PropertyNames(decl.members);
      assert SnakeTable(names) == Derive(names, DefaultConfig);
    }
  }

  /** The code as written disagrees with the corrected expansion on every
      struct with a property whose override differs from its snake_case form. */
  lemma AsWrittenIgnoresOverrides(decl: DeclGroup, config: Config, k: nat)
    requires decl.StructDecl?
    requires k < |PropertyNames(decl.members)|
    requires PropertyNames(decl.members)[k] in config.customKeys
    requires config.customKeys[PropertyNames(decl.members)[k]] != Snake(PropertyNames(decl.members)[k])
    ensures ExpansionAsWritten(decl) != Expansion(decl, config)
  {
    assert ExpansionAsWritten(decl).value.cases[k] != Expansion(decl, config).value.cases[k];
  }
}
