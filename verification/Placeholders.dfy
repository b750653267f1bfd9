/** `replacePlaceholders` of the welcome and goodbye messages: one split/join pass a placeholder. */
module Placeholders {
  import opened BraceTemplates
  import opened Options

  datatype Key = UserMention | Username | UserTag | UserId | ServerName | MemberCount

  /** The values to fill in; a key without a value counts as the empty string. */
  type Context = map<Key, string>

  /** Placeholder names, without their braces, in the order of the passes. */
  const PLACEHOLDER_PAIRS: seq<(string, Key)> := [
    ("user", UserMention),
    ("username", Username),
    ("userTag", UserTag),
    ("userId", UserId),
    ("server", ServerName),
    ("memberCount", MemberCount)
  ]

  function ValueOf(context: Context, key: Key): string {
    if key in context then context[key] else ""
  }

  /** `s.split(sep)` for a separator that is not empty. */
  function Split(s: string, sep: string): (parts: seq<string>)
    requires sep != ""
    ensures |parts| > 0
    decreases |s|
  {
    if sep <= s then [""] + Split(s[|sep|..], sep)
    else if s == "" then [""]
    else
      var parts := Split(s[1..], sep);
      [[s[0]] + parts[0]] + parts[1..]
  }

  /** `parts.join(glue)`. */
  function Join(parts: seq<string>, glue: string): string
    requires |parts| > 0
  {
    if |parts| == 1 then parts[0] else parts[0] + glue + Join(parts[1..], glue)
  }

  /** One pass: every occurrence of the group gives way to the value. */
  function Pass(t: string, name: string, value: string): string {
    Join(Split(t, Group(name)), value)
  }

  /** The substitution that replaces one name. */
  function Only(name: string, value: string): Substitution {
    n => if n == name then Some(value) else None
  }

  lemma StartsWithGroup(t: string, name: string)
    requires NoBrace(name)
    ensures Group(name) <= t <==> GroupAt(t) == Some(name)
  {
    if Group(name) <= t {
      GroupAtGroup(name, t[|name| + 2..]);
      assert t == Group(name) + t[|name| + 2..];
    }
  }

  lemma JoinCons(c: char, parts: seq<string>, glue: string)
    requires |parts| > 0
    ensures Join([[c] + parts[0]] + parts[1..], glue) == [c] + Join(parts, glue)
  {
    var longer := [[c] + parts[0]] + parts[1..];
    if |parts| > 1 {
      assert longer[1..] == parts[1..];
    }
  }

  /** A split/join pass is the substitution of one name, in any text. */
  lemma {:induction false} PassIsApply(t: string, name: string, value: string)
    requires NoBrace(name)
    ensures Pass(t, name, value) == Apply(t, Only(name, value))
    decreases |t|
  {
    StartsWithGroup(t, name);
    if Group(name) <= t {
      var rest := t[|name| + 2..];
      PassIsApply(rest, name, value);
      var parts := Split(rest, Group(name));
      assert ([""] + parts)[1..] == parts;
      assert "" + value == value;
    } else if t != "" {
      PassIsApply(t[1..], name, value);
      JoinCons(t[0], Split(t[1..], Group(name)), value);
    }
  }

  // ----- All the passes -----

  /** A list of names and values, one pass for each, in order. */
  type Pairs = seq<(string, string)>

  function Passes(t: string, pairs: Pairs): string {
    if pairs == [] then t
    else
      var last := |pairs| - 1;
      Pass(Passes(t, pairs[..last]), pairs[last].0, pairs[last].1)
  }

  /** The substitution by a list of pairs: the first pair with the name decides. */
  function Table(pairs: Pairs): Substitution {
    name => Lookup(pairs, name)
  }

  function Lookup(pairs: Pairs, name: string): (value: Option<string>)
    ensures value.Some? ==> (name, value.value) in pairs
    ensures value.None? ==> forall v :: (name, v) !in pairs
  {
    if pairs == [] then None
    else
      var last := |pairs| - 1;
      var before := Lookup(pairs[..last], name);
      if before.Some? then before
      else if pairs[last].0 == name then Some(pairs[last].1)
      else None
  }

  ghost predicate PlainNames(pairs: Pairs) {
    forall p <- pairs :: NoBrace(p.0)
  }

  ghost predicate PlainValues(pairs: Pairs) {
    forall p <- pairs :: NoBrace(p.1)
  }

  ghost predicate DistinctNames(pairs: Pairs) {
    forall i, j :: 0 <= i < j < |pairs| ==> pairs[i].0 != pairs[j].0
  }

  /** The passes, one after another, are one simultaneous substitution. */
  lemma {:induction false} PassesAreOneSubstitution(t: string, pairs: Pairs)
    requires NonNested(t) && PlainNames(pairs) && PlainValues(pairs)
    ensures Passes(t, pairs) == Apply(t, Table(pairs))
    decreases |pairs|
  {
    if pairs == [] {
      NothingToReplace(t, Table(pairs));
    } else {
      var last := |pairs| - 1;
      var before, p := pairs[..last], pairs[last];
      PassesAreOneSubstitution(t, before);
      PassIsApply(Passes(t, before), p.0, p.1);
      TwoPassesAreOne(t, Table(before), Only(p.0, p.1));
      SameSubstitution(t, OrElse(Table(before), Only(p.0, p.1)), Table(pairs));
    }
  }

  /** The order of the pairs makes no difference. */
  lemma OrderDoesNotMatter(t: string, pairs: Pairs, reordered: Pairs)
    requires NonNested(t) && PlainNames(pairs) && PlainValues(pairs)
    requires DistinctNames(pairs) && multiset(pairs) == multiset(reordered)
    ensures Passes(t, reordered) == Passes(t, pairs)
  {
    assert forall p :: p in reordered <==> p in pairs by {
      assert forall p :: p in reordered <==> p in multiset(reordered);
      assert forall p :: p in pairs <==> p in multiset(pairs);
    }
    PassesAreOneSubstitution(t, pairs);
    PassesAreOneSubstitution(t, reordered);
    forall name
      ensures Table(pairs)(name) == Table(reordered)(name)
    {
      var a, b := Lookup(pairs, name), Lookup(reordered, name);
      if a.Some? && b.Some? {
        var i :| 0 <= i < |pairs| && pairs[i] == (name, a.value);
        var j :| 0 <= j < |pairs| && pairs[j] == (name, b.value);
      }
    }
    SameSubstitution(t, Table(pairs), Table(reordered));
  }

  // ----- The utility -----

  /** The pairs of one context. */
  function Filled(context: Context, pairs: seq<(string, Key)>): (filled: Pairs)
    ensures |filled| == |pairs|
    ensures forall i :: 0 <= i < |pairs| ==> filled[i] == (pairs[i].0, ValueOf(context, pairs[i].1))
  {
    seq(|pairs|, i requires 0 <= i < |pairs| => (pairs[i].0, ValueOf(context, pairs[i].1)))
  }

  ghost predicate PlainContext(context: Context) {
    forall key <- context :: NoBrace(context[key])
  }

  /** The part of the context that a name stands for. */
  function KeyNamed(name: string): Option<Key> {
    if name == "user" then Some(UserMention)
    else if name == "username" then Some(Username)
    else if name == "userTag" then Some(UserTag)
    else if name == "userId" then Some(UserId)
    else if name == "server" then Some(ServerName)
    else if name == "memberCount" then Some(MemberCount)
    else None
  }

  /** What the utility promises: each of the six names gives way to its part of the context, to nothing
      if that is missing, and other names stay. */
  function Named(context: Context): Substitution {
    name =>
      var key := KeyNamed(name);
      if key.None? then None
      else if key.value in context then Some(context[key.value])
      else Some("")
  }

  lemma TableIsNamed(context: Context, name: string)
    ensures Table(Filled(context, PLACEHOLDER_PAIRS))(name) == Named(context)(name)
  {
    var filled := Filled(context, PLACEHOLDER_PAIRS);
    var found := Lookup(filled, name);
    if found.Some? {
      var i :| 0 <= i < |filled| && filled[i] == (name, found.value);
      assert PLACEHOLDER_PAIRS[i].0 == name;
    }
    forall i | 0 <= i < |PLACEHOLDER_PAIRS|
      ensures found.None? ==> PLACEHOLDER_PAIRS[i].0 != name
    {
      assert filled[i] in filled && (found.None? ==> (name, filled[i].1) !in filled);
    }
    assert found.None? ==> PLACEHOLDER_PAIRS[0].0 != name && PLACEHOLDER_PAIRS[1].0 != name
                           && PLACEHOLDER_PAIRS[2].0 != name && PLACEHOLDER_PAIRS[3].0 != name
                           && PLACEHOLDER_PAIRS[4].0 != name && PLACEHOLDER_PAIRS[5].0 != name;
  }

  /** The passes over a text whose braces do not nest, with values without braces, are the promised
      simultaneous substitution. */
  lemma PassesAreNamed(t: string, context: Context)
    requires NonNested(t) && PlainContext(context)
    ensures Passes(t, Filled(context, PLACEHOLDER_PAIRS)) == Apply(t, Named(context))
  {
    PassesAreOneSubstitution(t, Filled(context, PLACEHOLDER_PAIRS));
    forall name
      ensures Table(Filled(context, PLACEHOLDER_PAIRS))(name) == Named(context)(name)
    {
      TableIsNamed(context, name);
    }
    SameSubstitution(t, Table(Filled(context, PLACEHOLDER_PAIRS)), Named(context));
  }

  /** A placeholder in a text without other braces becomes its part of the context. */
  lemma PlaceholderShows(x: string, name: string, y: string, context: Context)
    requires NoBrace(x) && NoBrace(name) && NoBrace(y) && PlainContext(context)
    ensures Passes(x + ("{" + name + "}" + y), Filled(context, PLACEHOLDER_PAIRS))
            == match KeyNamed(name)
               case Some(key) => x + ((if key in context then context[key] else "") + y)
               case None => x + ("{" + name + "}" + y)
  {
    OneGroupIsNotNested(x, name, y);
    PassesAreNamed(x + (Group(name) + y), context);
    ApplyAround(x, name, y, Named(context));
  }

  /** `replacePlaceholders`: the passes over any text; one simultaneous substitution when the
      braces of the text do not nest and no value has a brace. */
  method ReplacePlaceholders(text: Option<string>, context: Context) returns (result: string)
    ensures text.None? ==> result == ""
    ensures text.Some? ==> result == Passes(text.value, Filled(context, PLACEHOLDER_PAIRS))
    ensures text.Some? && NonNested(text.value) && PlainContext(context)
            ==> result == Apply(text.value, Named(context))
  {
    ghost var filled := Filled(context, PLACEHOLDER_PAIRS);
    if text == None || text.value == "" {
      EmptyText(filled);
      if text.Some? && PlainContext(context) {
        PassesAreNamed("", context);
      }
      return "";
    }
    result := text.value;
    var i := 0;
    while i < |PLACEHOLDER_PAIRS|
      invariant 0 <= i <= |PLACEHOLDER_PAIRS|
      invariant result == Passes(text.value, filled[..i])
    {
      var (placeholder, key) := PLACEHOLDER_PAIRS[i];
      var value := ValueOf(context, key);
      result := Join(Split(result, Group(placeholder)), value);
      assert filled[..i + 1][..i] == filled[..i];
      i := i + 1;
    }
    assert filled[..i] == filled;
    if NonNested(text.value) && PlainContext(context) {
      PassesAreNamed(text.value, context);
    }
  }

  lemma {:induction false} EmptyText(pairs: Pairs)
    ensures Passes("", pairs) == ""
    decreases |pairs|
  {
    if pairs != [] {
      EmptyText(pairs[..|pairs| - 1]);
    }
  }

  // ----- Why both hypotheses are needed -----

  lemma TwoPasses(t: string, a: (string, string), b: (string, string))
    requires NoBrace(a.0) && NoBrace(b.0) && a.0 != b.0
    ensures Passes(t, [a, b]) == Apply(Apply(t, Only(a.0, a.1)), Only(b.0, b.1))
    ensures Lookup([a, b], a.0) == Some(a.1)
  {
    assert [a, b][..1] == [a] && [a][..0] == [];
    PassIsApply(t, a.0, a.1);
    PassIsApply(Pass(t, a.0, a.1), b.0, b.1);
    assert Passes(t, [a]) == Pass(t, a.0, a.1);
    assert Lookup([a], a.0) == Some(a.1);
  }

  lemma WholeGroup(name: string, f: Substitution)
    requires NoBrace(name) && f(name).Some?
    ensures Apply(Group(name), f) == f(name).value
  {
    ApplyGroup(name, "", f);
    assert Group(name) + "" == Group(name);
  }

  /** Nested braces: filling the inner group completes the outer one, which a later pass then
      replaces. No single substitution gives that text, since every one leaves the outer brace. With
      "user", "user", "name" and "Ann" the text is `{{user}name}`. */
  lemma NestedTemplateDiffers(inner: string, value: string, tail: string, outerValue: string)
    requires NoBrace(inner) && NoBrace(value) && NoBrace(tail) && NoBrace(outerValue)
    requires inner != value + tail
    ensures var t := "{" + (Group(inner) + (tail + "}"));
            var pairs := [(inner, value), (value + tail, outerValue)];
            && Passes(t, pairs) == outerValue && Apply(t, Table(pairs)) == Group(value + tail) != outerValue
            && forall f: Substitution :: Apply(t, f) != Passes(t, pairs)
  {
    var rest := tail + "}";
    var t := "{" + (Group(inner) + rest);
    var pairs := [(inner, value), (value + tail, outerValue)];
    TwoPasses(t, pairs[0], pairs[1]);
    FillInner(inner, rest, Only(inner, value));
    FillInner(inner, rest, Table(pairs));
    assert "{" + (value + rest) == Group(value + tail);
    WholeGroup(value + tail, Only(value + tail, outerValue));
    assert Group(value + tail)[0] == '{';
    forall f: Substitution
      ensures Apply(t, f) != outerValue
    {
      FillInner(inner, rest, f);
      assert Apply(t, f)[0] == '{';
    }
  }

  /** A value with braces: a user who is named like another placeholder has the name replaced by
      the later pass. */
  lemma BraceInValueDiffers(name: string, other: string, otherValue: string)
    requires NoBrace(name) && NoBrace(other) && NoBrace(otherValue) && name != other
    ensures var pairs := [(name, Group(other)), (other, otherValue)];
            Passes(Group(name), pairs) == otherValue
            && Apply(Group(name), Table(pairs)) == Group(other) != otherValue
  {
    var pairs := [(name, Group(other)), (other, otherValue)];
    TwoPasses(Group(name), pairs[0], pairs[1]);
    WholeGroup(name, Only(name, Group(other)));
    WholeGroup(other, Only(other, otherValue));
    WholeGroup(name, Table(pairs));
    assert Group(other)[0] == '{';
  }
}
