/** The `convertToSnakeCase` helper of the `@AutoCodingKeys` macro: every
    upper-case character becomes an underscore followed by its lower-case
    form, every other character is copied. */
module SnakeCaseConversion {
  import opened Ascii

  /** What one input character contributes to the output. */
  function SnakeChar(c: char): string {
    if IsUpper(c) then ['_', ToLower(c)] else [c]
  }

  /** The number of upper-case characters in `s`. */
  function CountUpper(s: string): nat {
    if s == [] then 0 else (if IsUpper(s[0]) then 1 else 0) + CountUpper(s[1..])
  }

  predicate NoUpper(s: string) {
    forall i :: 0 <= i < |s| ==> !IsUpper(s[i])
  }

  /** The snake_case form of a property name. Each capital adds exactly one
      character (the underscore), and no capital survives. */
  function Snake(s: string): (r: string)
    ensures |r| == |s| + CountUpper(s)
    ensures NoUpper(r)
  {
    if s == [] then [] else SnakeChar(s[0]) + Snake(s[1..])
  }

  /** The left-to-right loop of the source: scan the characters in order and
      append each one's contribution to an accumulator. */
  method ConvertToSnakeCase(camelCase: string) returns (snakeCase: string)
    ensures snakeCase == Snake(camelCase)
    ensures |snakeCase| == |camelCase| + CountUpper(camelCase)
    ensures NoUpper(snakeCase)
  {
    snakeCase := "";
    for i := 0 to |camelCase|
      invariant snakeCase == Snake(camelCase[..i])
    {
      var character := camelCase[i];
      ghost var before := snakeCase;
      if IsUpper(character) {
        snakeCase := snakeCase + "_";
        snakeCase := snakeCase + [ToLower(character)];
      } else {
        snakeCase := snakeCase + [character];
      }
      assert snakeCase == before + SnakeChar(character);
      assert camelCase[..i + 1] == camelCase[..i] + [character];
      SnakeConcat(camelCase[..i], [character]);
      SnakeSingle(character);
    }
    assert camelCase[..|camelCase|] == camelCase;
  }

  /** The conversion works character by character, so it distributes over
      concatenation. */
  lemma {:induction false} SnakeConcat(a: string, b: string)
    ensures Snake(a + b) == Snake(a) + Snake(b)
  {
    if a == [] {
      assert a + b == b;
    } else {
      assert (a + b)[0] == a[0];
      assert (a + b)[1..] == a[1..] + b;
      SnakeConcat(a[1..], b);
    }
  }

  /** Character `i` of the input contributes exactly `SnakeChar(s[i])`,
      between the conversions of what precedes and what follows it; by the
      length clause of `Snake`, it lands at offset `i` plus the number of
      capitals before it. */
  lemma SnakeAt(s: string, i: nat)
    requires i < |s|
    ensures Snake(s) == Snake(s[..i]) + SnakeChar(s[i]) + Snake(s[i + 1..])
  {
    var before, c, after := s[..i], s[i], s[i + 1..];
    var front := before + [c];
    SplitAt(s, i);
    SnakeConcat(front, after);
    SnakeConcat(before, [c]);
    SnakeSingle(c);
    assert Snake(front) == Snake(before) + SnakeChar(c);
  }

  lemma SnakeSingle(c: char)
    ensures Snake([c]) == SnakeChar(c)
  {
    assert [c][1..] == [];
  }

  lemma {:induction false} CountUpperPositive(s: string)
    requires !NoUpper(s)
    ensures CountUpper(s) > 0
  {
    if !IsUpper(s[0]) {
      var i :| 0 <= i < |s| && IsUpper(s[i]);
      assert s[1..][i - 1] == s[i];
      CountUpperPositive(s[1..]);
    }
  }

  lemma {:induction false} SnakeOfNoUpper(s: string)
    requires NoUpper(s)
    ensures Snake(s) == s
  {
    if s != [] {
      assert NoUpper(s[1..]) by {
        forall j | 0 <= j < |s[1..]| ensures !IsUpper(s[1..][j]) {
          assert s[1..][j] == s[j + 1];
        }
      }
      SnakeOfNoUpper(s[1..]);
    }
  }

  /** A name is left unchanged exactly when it holds no capital: already
      snake_case names such as `first_name` and `age` pass through. */
  lemma {:induction false} SnakeFixedPoint(s: string)
    ensures Snake(s) == s <==> NoUpper(s)
  {
    if NoUpper(s) {
      SnakeOfNoUpper(s);
    } else {
      CountUpperPositive(s);
    }
  }

  /** Converting twice is the same as converting once. */
  lemma SnakeIdempotent(s: string)
    ensures Snake(Snake(s)) == Snake(s)
  {
    SnakeOfNoUpper(Snake(s));
  }

  /** There is no special case for the first position: a leading capital
      yields a leading underscore. */
  lemma SnakeLeadingCapital(s: string)
    requires |s| > 0 && IsUpper(s[0])
    ensures |Snake(s)| >= 2
    ensures Snake(s)[0] == '_' && Snake(s)[1] == ToLower(s[0])
  {
  }

  /** Reads a snake_case key back into camelCase: an underscore followed by a
      character stands for that character in upper case. It undoes `Snake`
      on names that contain no underscore. */
  function Unsnake(t: string): string {
    if t == [] then []
    else if t[0] == '_' && |t| >= 2 then [ToUpper(t[1])] + Unsnake(t[2..])
    else [t[0]] + Unsnake(t[1..])
  }

  /** The strings `Snake` produces from underscore-free names: no capital,
      and every underscore followed by a lower-case letter. */
  predicate SnakeForm(t: string) {
    && NoUpper(t)
    && forall i :: 0 <= i < |t| && t[i] == '_' ==> i + 1 < |t| && IsLower(t[i + 1])
  }

  /** Round trip: an underscore-free name is recovered from its key. */
  lemma {:induction false} UnsnakeSnake(s: string)
    requires '_' !in s
    ensures Unsnake(Snake(s)) == s
  {
    if s != [] {
      var rest := Snake(s[1..]);
      UnsnakeSnake(s[1..]);
      if IsUpper(s[0]) {
        var t := ['_', ToLower(s[0])] + rest;
        assert t[2..] == rest;
        ToUpperToLower(s[0]);
      } else {
        var t := [s[0]] + rest;
        assert t[1..] == rest;
      }
    }
  }

  lemma {:induction false} SnakeFormTail(t: string, k: nat)
    requires SnakeForm(t) && k <= |t|
    ensures SnakeForm(t[k..])
  {
    forall j | 0 <= j < |t[k..]| ensures !IsUpper(t[k..][j]) {
      assert t[k..][j] == t[k + j];
    }
    forall j | 0 <= j < |t[k..]| && t[k..][j] == '_'
      ensures j + 1 < |t[k..]| && IsLower(t[k..][j + 1])
    {
      assert t[k..][j] == t[k + j];
    }
  }

  /** Round trip the other way: a well-formed snake_case key is the key of
      its camelCase reading. */
  lemma {:induction false} SnakeUnsnake(t: string)
    requires SnakeForm(t)
    ensures Snake(Unsnake(t)) == t
  {
    if t != [] {
      if t[0] == '_' {
        var u := ToUpper(t[1]);
        assert ToLower(u) == t[1];
        SnakeFormTail(t, 2);
        SnakeUnsnake(t[2..]);
        assert Unsnake(t) == [u] + Unsnake(t[2..]);
        SnakeConcat([u], Unsnake(t[2..]));
        assert t == [t[0], t[1]] + t[2..];
      } else {
        SnakeFormTail(t, 1);
        SnakeUnsnake(t[1..]);
        assert Unsnake(t) == [t[0]] + Unsnake(t[1..]);
        SnakeConcat([t[0]], Unsnake(t[1..]));
        assert t == [t[0]] + t[1..];
      }
    }
  }

  /** `name` has exactly one capital, at position `k`, and `key` is `name`
      with that capital replaced by an underscore and its lower-case form. */
  predicate OneCapitalAt(name: string, k: nat, key: string) {
    && k < |name|
    && IsUpper(name[k])
    && NoUpper(name[..k])
    && NoUpper(name[k + 1..])
    && key == name[..k] + ['_', ToLower(name[k])] + name[k + 1..]
  }

  /** A one-capital camelCase name converts to the expected snake_case key. */
  lemma SnakeOneCapital(name: string, k: nat, key: string)
    requires OneCapitalAt(name, k, key)
    ensures Snake(name) == key
  {
    var head, capital, tail := name[..k], name[k], name[k + 1..];
    SnakeOfNoUpper(head);
    SnakeOfNoUpper(tail);
    assert Snake([capital]) == ['_', ToLower(capital)];
    SnakeConcat(head, [capital]);
    SnakeConcat(head + [capital], tail);
    SplitAt(name, k);
  }

  /** A string is what precedes position `i`, the character there, and what
      follows it. */
  lemma SplitAt(s: string, i: nat)
    requires i < |s|
    ensures s == s[..i] + [s[i]] + s[i + 1..]
  {
    assert s[i..] == [s[i]] + s[i + 1..];
    assert s == s[..i] + s[i..];
  }
}
