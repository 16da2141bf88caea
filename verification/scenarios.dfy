/** The structs the package's tests and client declare, with the tables
    the expansion gives them. Each lemma takes the field names as arguments
    fixed by its precondition (`requires name == "..."`) rather than writing
    the string literals inline: the verifier then reasons about each name
    once, which keeps these concrete proofs cheap. */
module Scenarios {
  import opened Wrappers
  import opened SnakeCaseConversion
  import opened Syntax
  import opened CodingKeys

  /** `let <name>: T`, a declaration with one identifier binding. */
  function Let(name: string): MemberDecl {
    VariableDecl([PatternBinding(IdentifierPattern(name))])
  }

  /** The members of a struct declaring one `let` per name, in order. */
  function Lets(names: seq<string>): (members: seq<MemberDecl>)
    ensures |members| == |names|
  {
    if names == [] then [] else [Let(names[0])] + Lets(names[1..])
  }

  lemma {:induction false} PropertyNamesOfLets(names: seq<string>)
    ensures PropertyNames(Lets(names)) == names
  {
    if names != [] {
      var members := Lets(names);
      assert members[0] == Let(names[0]);
      assert members[1..] == Lets(names[1..]);
      PropertyNamesOfLets(names[1..]);
    }
  }

  /** The expansion of such a struct is the table of its names, both as
      written and as corrected. */
  lemma ExpansionOfLets(names: seq<string>, config: Config)
    ensures Expansion(StructDecl(Lets(names)), config) == Success(CodingKeysEnum(Derive(names, config)))
    ensures ExpansionAsWritten(StructDecl(Lets(names))) == Success(CodingKeysEnum(SnakeTable(names)))
  {
    PropertyNamesOfLets(names);
  }

  // Where the capital of each camelCase test name sits, and the key it gives.

  lemma FirstNameSplit(name: string)
    requires name == "firstName"
    ensures OneCapitalAt(name, 5, "first_name")
  {
  }

  lemma LastNameSplit(name: string)
    requires name == "lastName"
    ensures OneCapitalAt(name, 4, "last_name")
  {
  }

  lemma ProductNameSplit(name: string)
    requires name == "productName"
    ensures OneCapitalAt(name, 7, "product_name")
  {
  }

  lemma ProductDescriptionSplit(name: string)
    requires name == "productDescription"
    ensures OneCapitalAt(name, 7, "product_description")
  {
  }

  // Snake_case test names hold no capital.

  lemma FirstNameSnakeForm(name: string)
    requires name == "first_name"
    ensures NoUpper(name)
  {
  }

  lemma LastNameSnakeForm(name: string)
    requires name == "last_name"
    ensures NoUpper(name)
  {
  }

  lemma ProductNameSnakeForm(name: string)
    requires name == "product_name"
    ensures NoUpper(name)
  {
  }

  lemma ProductDescriptionSnakeForm(name: string)
    requires name == "product_description"
    ensures NoUpper(name)
  {
  }

  lemma AgeSnakeForm(name: string)
    requires name == "age"
    ensures NoUpper(name)
  {
  }

  lemma PriceSnakeForm(name: string)
    requires name == "price"
    ensures NoUpper(name)
  {
  }

  /** `customKeys: ["productDescription": "description"]`. */
  const ProductKeys := Config(map["productDescription" := "description"], SnakeCase)

  /** `productDescription` is the only name `ProductKeys` overrides. */
  lemma NotOverridden(name: string)
    requires name != "productDescription"
    ensures name !in ProductKeys.customKeys
  {
  }

  /** `@AutoCodingKeys struct Person { firstName, lastName, age }`:
      camelCase property names become snake_case keys; `age` is kept. */
  lemma PersonKeys(firstName: string, lastName: string, age: string)
    requires firstName == "firstName" && lastName == "lastName" && age == "age"
    ensures Derive([firstName, lastName, age], DefaultConfig)
         == [CodingKey(firstName, "first_name"), CodingKey(lastName, "last_name"), CodingKey(age, "age")]
  {
    FirstNameSplit(firstName);
    SnakeOneCapital(firstName, 5, "first_name");
    LastNameSplit(lastName);
    SnakeOneCapital(lastName, 4, "last_name");
    AgeSnakeForm(age);
    SnakeOfNoUpper(age);
  }

  /** `@AutoCodingKeys(customKeys: ["productDescription": "description"])`:
      the override gives `productDescription` the key `description`; the
      other properties keep the convention. */
  lemma ProductKeysWithOverride(productName: string, productDescription: string, price: string)
    requires productName == "productName" && productDescription == "productDescription" && price == "price"
    ensures Derive([productName, productDescription, price], ProductKeys)
         == [CodingKey(productName, "product_name"),
             CodingKey(productDescription, "description"),
             CodingKey(price, "price")]
  {
    ProductNameSplit(productName);
    SnakeOneCapital(productName, 7, "product_name");
    PriceSnakeForm(price);
    SnakeOfNoUpper(price);
    NotOverridden(productName);
    NotOverridden(price);
    assert ProductKeys.customKeys[productDescription] == "description";
  }

  /** Only variable declarations whose first binding is an identifier
      contribute, and only through that first binding. */
  lemma FirstIdentifierBindingOnly()
    ensures PropertyNames([
              VariableDecl([PatternBinding(IdentifierPattern("a")), PatternBinding(IdentifierPattern("b"))]),
              OtherMember,
              VariableDecl([PatternBinding(OtherPattern), PatternBinding(IdentifierPattern("c"))]),
              VariableDecl([])]) == ["a"]
  {
  }

  /** The code as written gives `productDescription` the key
      `product_description`, not the `description` the override asks for
      (compare `ProductKeysWithOverride`). */
  lemma ProductOverrideIgnoredAsWritten(productName: string, productDescription: string, price: string)
    requires productName == "productName" && productDescription == "productDescription" && price == "price"
    ensures |SnakeTable([productName, productDescription, price])| == 3
    ensures SnakeTable([productName, productDescription, price])[1]
         == CodingKey(productDescription, "product_description")
  {
    ProductDescriptionSplit(productDescription);
    SnakeOneCapital(productDescription, 7, "product_description");
  }

  /** Distinct property names can share a key, and the table does not
      detect it: `firstName` and `first_name` both map to `first_name`. */
  lemma DuplicateKeysAllowed(camel: string, snake: string)
    requires camel == "firstName" && snake == "first_name"
    ensures camel != snake
    ensures Derive([camel, snake], DefaultConfig) == [CodingKey(camel, "first_name"), CodingKey(snake, "first_name")]
  {
    FirstNameSplit(camel);
    SnakeOneCapital(camel, 5, "first_name");
    SnakeOfNoUpper(snake);
  }

  /** `@AutoCodingKeys(keyCase: .camelCase) struct PersonWithCamelCaseKeys
      { firstName, lastName, age }`: the code as written ignores the key case
      and still gives the snake_case keys. */
  lemma CamelCaseKeysIgnoredAsWritten(firstName: string, lastName: string, age: string)
    requires firstName == "firstName" && lastName == "lastName" && age == "age"
    ensures SnakeTable([firstName, lastName, age])
         == [CodingKey(firstName, "first_name"), CodingKey(lastName, "last_name"), CodingKey(age, "age")]
  {
    FirstNameSplit(firstName);
    SnakeOneCapital(firstName, 5, "first_name");
    LastNameSplit(lastName);
    SnakeOneCapital(lastName, 4, "last_name");
    AgeSnakeForm(age);
    SnakeOfNoUpper(age);
  }

  /** With `keyCase: .camelCase` and no overrides, the corrected table gives
      every property the camelCase conversion of its name, whatever that
      conversion is. */
  lemma CamelCaseKeysUseConversion(names: seq<string>, convert: string -> string)
    ensures Derive(names, Config(map[], CamelCase(convert)))
         == seq(|names|, i requires 0 <= i < |names| => CodingKey(names[i], convert(names[i])))
  {
  }

  /** `@AutoCodingKeys(keyCase: .camelCase) struct Person { first_name,
      last_name, age }`: as written, the names have no capital and are their
      own keys. */
  lemma SnakeNamedPersonAsWritten(firstName: string, lastName: string, age: string)
    requires firstName == "first_name" && lastName == "last_name" && age == "age"
    ensures SnakeTable([firstName, lastName, age])
         == [CodingKey(firstName, firstName), CodingKey(lastName, lastName), CodingKey(age, age)]
  {
    FirstNameSnakeForm(firstName);
    SnakeOfNoUpper(firstName);
    LastNameSnakeForm(lastName);
    SnakeOfNoUpper(lastName);
    AgeSnakeForm(age);
    SnakeOfNoUpper(age);
  }

  /** `@AutoCodingKeys(customKeys: ["productDescription": "description"])
      struct ProductWithSnakeCaseAttrTests { product_name,
      product_description, price }`: the override names no property, so the
      corrected table makes every name its own key. */
  lemma SnakeNamedProductKeys(productName: string, productDescription: string, price: string)
    requires productName == "product_name" && productDescription == "product_description" && price == "price"
    ensures Derive([productName, productDescription, price], ProductKeys)
         == [CodingKey(productName, productName), CodingKey(productDescription, productDescription), CodingKey(price, price)]
  {
    ProductNameSnakeForm(productName);
    SnakeOfNoUpper(productName);
    ProductDescriptionSnakeForm(productDescription);
    SnakeOfNoUpper(productDescription);
    PriceSnakeForm(price);
    SnakeOfNoUpper(price);
    NotOverridden(productName);
    NotOverridden(productDescription);
    NotOverridden(price);
  }

  /** The same struct as written: the same keys, since the code as written
      gives every name its snake_case form. */
  lemma SnakeNamedProductAsWritten(productName: string, productDescription: string, price: string)
    requires productName == "product_name" && productDescription == "product_description" && price == "price"
    ensures SnakeTable([productName, productDescription, price])
         == [CodingKey(productName, productName), CodingKey(productDescription, productDescription), CodingKey(price, price)]
  {
    ProductNameSnakeForm(productName);
    SnakeOfNoUpper(productName);
    ProductDescriptionSnakeForm(productDescription);
    SnakeOfNoUpper(productDescription);
    PriceSnakeForm(price);
    SnakeOfNoUpper(price);
  }
}
