/** Templates with `{name}` groups, and the replacement of groups by text.

    Both template utilities replace groups in several passes, one after another. What they promise
    is one substitution. This module relates the two: two passes are one pass, as long as braces do
    not nest in the template and no replacement text contains a brace. */
module BraceTemplates {
  import opened Options

  /** What each group name is replaced by; None leaves the group as it is. */
  type Substitution = string -> Option<string>

  predicate IsBrace(c: char) {
    c == '{' || c == '}'
  }

  /** Length of the longest prefix of t without braces. */
  function PlainPrefix(t: string): (n: nat)
    ensures n <= |t|
    ensures forall i :: 0 <= i < n ==> !IsBrace(t[i])
    ensures n < |t| ==> IsBrace(t[n])
  {
    if t == [] || IsBrace(t[0]) then 0 else 1 + PlainPrefix(t[1..])
  }

  predicate NoBrace(t: string) {
    forall i :: 0 <= i < |t| ==> !IsBrace(t[i])
  }

  /** The name of the group that t starts with: an opening brace, text without braces, a closing brace. */
  function GroupAt(t: string): (name: Option<string>)
    ensures name.Some? ==> NoBrace(name.value) && Group(name.value) <= t
  {
    if t == [] || t[0] != '{' then None
    else
      var n := PlainPrefix(t[1..]);
      if 1 + n < |t| && t[1 + n] == '}' then Some(t[1..1 + n]) else None
  }

  function Group(name: string): string {
    "{" + name + "}"
  }

  /** One simultaneous left-to-right substitution. */
  function Apply(t: string, f: Substitution): string
    decreases |t|
  {
    if t == [] then []
    else
      var g := GroupAt(t);
      if g.Some? && f(g.value).Some? then f(g.value).value + Apply(t[|g.value| + 2..], f)
      else [t[0]] + Apply(t[1..], f)
  }

  /** Braces do not nest: between two opening braces there is a closing one. */
  ghost predicate NonNested(t: string) {
    forall i, j :: 0 <= i < j < |t| && t[i] == '{' && t[j] == '{' ==> exists k :: i < k < j && t[k] == '}'
  }

  ghost predicate BraceFree(f: Substitution) {
    forall name :: f(name).Some? ==> NoBrace(f(name).value)
  }

  /** First choice f, then g. */
  function OrElse(f: Substitution, g: Substitution): Substitution {
    name => if f(name).Some? then f(name) else g(name)
  }

  lemma NonNestedSuffix(t: string, n: nat)
    requires NonNested(t) && n <= |t|
    ensures NonNested(t[n..])
  {
    var s := t[n..];
    forall i, j | 0 <= i < j < |s| && s[i] == '{' && s[j] == '{'
      ensures exists k :: i < k < j && s[k] == '}'
    {
      assert t[n + i] == '{' && t[n + j] == '{';
      var k :| n + i < k < n + j && t[k] == '}';
      assert s[k - n] == '}';
    }
  }

  lemma PlainPrefixOf(x: string, y: string)
    requires NoBrace(x) && (y == [] || IsBrace(y[0]))
    ensures PlainPrefix(x + y) == |x|
  {
    var t := x + y;
    assert forall i :: 0 <= i < |x| ==> t[i] == x[i];
    assert y != [] ==> t[|x|] == y[0];
  }

  /** The group at the start of a text is decided by that group alone, whatever follows. */
  lemma GroupAtGroup(name: string, rest: string)
    requires NoBrace(name)
    ensures GroupAt(Group(name) + rest) == Some(name)
  {
    var t := Group(name) + rest;
    assert t[1..] == name + ("}" + rest);
    PlainPrefixOf(name, "}" + rest);
    assert t[1 + |name|] == '}';
    assert t[1..1 + |name|] == name;
  }

  /** A substitution copies text without opening braces. */
  lemma {:induction false} ApplyPlain(x: string, y: string, f: Substitution)
    requires forall i :: 0 <= i < |x| ==> x[i] != '{'
    ensures Apply(x + y, f) == x + Apply(y, f)
    decreases |x|
  {
    if x == [] {
      assert x + y == y;
    } else {
      assert (x + y)[1..] == x[1..] + y;
      ApplyPlain(x[1..], y, f);
    }
  }

  /** A text that starts with a group: what follows the opening brace is copied up to the end of the group. */
  lemma GroupSurvives(t: string, f: Substitution)
    requires GroupAt(t).Some?
    ensures var name := GroupAt(t).value;
            "{" + Apply(t[1..], f) == Group(name) + Apply(t[|name| + 2..], f)
  {
    var name := GroupAt(t).value;
    var rest := t[|name| + 2..];
    assert t == Group(name) + rest;
    CopyToGroupEnd(name, rest, f);
  }

  /** Without nesting, an opening brace that starts no group has no brace after it. */
  lemma OpenBraceAlone(t: string)
    requires NonNested(t) && t != [] && t[0] == '{' && GroupAt(t).None?
    ensures NoBrace(t[1..])
  {
    var n := PlainPrefix(t[1..]);
    if 1 + n < |t| {
      assert false;
    }
  }

  lemma ApplyGroup(name: string, rest: string, f: Substitution)
    requires NoBrace(name) && f(name).Some?
    ensures Apply(Group(name) + rest, f) == f(name).value + Apply(rest, f)
  {
    GroupAtGroup(name, rest);
    assert (Group(name) + rest)[|name| + 2..] == rest;
  }

  lemma ApplyKeepsGroup(name: string, rest: string, f: Substitution)
    requires NoBrace(name) && f(name).None?
    ensures Apply(Group(name) + rest, f) == Group(name) + Apply(rest, f)
  {
    GroupAtGroup(name, rest);
    KeepFirst(Group(name) + rest, f);
    CopyToGroupEnd(name, rest, f);
  }

  lemma KeepFirst(t: string, f: Substitution)
    requires GroupAt(t).Some? && f(GroupAt(t).value).None?
    ensures Apply(t, f) == "{" + Apply(t[1..], f)
  {
  }

  lemma CopyToGroupEnd(name: string, rest: string, f: Substitution)
    requires NoBrace(name)
    ensures "{" + Apply((Group(name) + rest)[1..], f) == Group(name) + Apply(rest, f)
  {
    assert (Group(name) + rest)[1..] == (name + "}") + rest;
    ApplyPlain(name + "}", rest, f);
    assert "{" + (name + "}") == Group(name);
  }

  /** A group in a text without other braces, replaced or kept. */
  lemma ApplyAround(x: string, name: string, y: string, f: Substitution)
    requires NoBrace(x) && NoBrace(name) && NoBrace(y)
    ensures Apply(x + (Group(name) + y), f) == x + ((if f(name).Some? then f(name).value else Group(name)) + y)
  {
    ApplyPlain(x, Group(name) + y, f);
    if f(name).Some? {
      ApplyGroup(name, y, f);
    } else {
      ApplyKeepsGroup(name, y, f);
    }
    ApplyPlain(y, "", f);
    assert y + "" == y;
  }

  lemma OneGroupIsNotNested(x: string, name: string, y: string)
    requires NoBrace(x) && NoBrace(name) && NoBrace(y)
    ensures NonNested(x + (Group(name) + y))
  {
    var t := x + (Group(name) + y);
    assert forall i :: 0 <= i < |t| && t[i] == '{' ==> i == |x|;
  }

  lemma StepOverNested(u: string, f: Substitution)
    requires u != "" && u[0] == '{'
    ensures Apply("{" + u, f) == "{" + Apply(u, f)
  {
    assert ("{" + u)[1..] == u;
  }

  /** The inner group of nested braces is replaced or kept, and the outer one not looked at again. */
  lemma FillInner(inner: string, rest: string, f: Substitution)
    requires NoBrace(inner) && forall i :: 0 <= i < |rest| ==> rest[i] != '{'
    ensures Apply("{" + (Group(inner) + rest), f)
            == "{" + ((if f(inner).Some? then f(inner).value else Group(inner)) + rest)
  {
    StepOverNested(Group(inner) + rest, f);
    if f(inner).Some? {
      ApplyGroup(inner, rest, f);
    } else {
      ApplyKeepsGroup(inner, rest, f);
    }
    ApplyPlain(rest, "", f);
    assert rest + "" == rest;
  }

  /** Two passes are one pass. */
  lemma {:induction false} TwoPassesAreOne(t: string, f: Substitution, g: Substitution)
    requires NonNested(t) && BraceFree(f)
    ensures Apply(Apply(t, f), g) == Apply(t, OrElse(f, g))
    decreases |t|
  {
    if t == [] {
    } else if GroupAt(t).None? {
      NonNestedSuffix(t, 1);
      TwoPassesAreOne(t[1..], f, g);
      if t[0] == '{' {
        OpenBraceAlone(t);
        ApplyPlain(t[1..], [], f);
        assert t[1..] + [] == t[1..];
        assert [t[0]] + t[1..] == t;
      }
      StepOver(t[0], Apply(t[1..], f), g);
    } else {
      TwoPassesAtGroup(t, f, g);
    }
  }

  lemma {:induction false} TwoPassesAtGroup(t: string, f: Substitution, g: Substitution)
    requires NonNested(t) && BraceFree(f) && GroupAt(t).Some?
    ensures Apply(Apply(t, f), g) == Apply(t, OrElse(f, g))
    decreases |t|, 0
  {
    var name := GroupAt(t).value;
    var rest := t[|name| + 2..];
    NonNestedSuffix(t, |name| + 2);
    TwoPassesAreOne(rest, f, g);
    if f(name).Some? {
      ApplyPlain(f(name).value, Apply(rest, f), g);
    } else {
      GroupSurvives(t, f);
      var u := Apply(t, f);
      assert u == Group(name) + Apply(rest, f);
      GroupAtGroup(name, Apply(rest, f));
      if g(name).Some? {
        assert u[|name| + 2..] == Apply(rest, f);
      } else {
        NonNestedSuffix(t, 1);
        TwoPassesAreOne(t[1..], f, g);
        assert u[1..] == Apply(t[1..], f);
      }
    }
  }

  lemma StepOver(c: char, u: string, g: Substitution)
    requires GroupAt([c] + u).None?
    ensures Apply([c] + u, g) == [c] + Apply(u, g)
  {
    assert ([c] + u)[1..] == u;
  }

  /** A substitution is decided by what it does to each name. */
  lemma {:induction false} SameSubstitution(t: string, f: Substitution, g: Substitution)
    requires forall name :: f(name) == g(name)
    ensures Apply(t, f) == Apply(t, g)
    decreases |t|
  {
    if t != [] {
      var name := GroupAt(t);
      if name.Some? && f(name.value).Some? {
        SameSubstitution(t[|name.value| + 2..], f, g);
      } else {
        SameSubstitution(t[1..], f, g);
      }
    }
  }

  lemma {:induction false} NothingToReplace(t: string, f: Substitution)
    requires forall name :: f(name).None?
    ensures Apply(t, f) == t
    decreases |t|
  {
    if t != [] {
      NothingToReplace(t[1..], f);
    }
  }

  /** Some group of t has a name in the given set. */
  ghost predicate HasGroup(t: string, names: string -> bool) {
    exists i :: GroupFrom(t, i, names)
  }

  predicate GroupFrom(t: string, i: int, names: string -> bool) {
    0 <= i <= |t| && StartsGroup(t[i..], names)
  }

  predicate StartsGroup(t: string, names: string -> bool) {
    GroupAt(t).Some? && names(GroupAt(t).value)
  }

  lemma GroupInSuffix(c: char, u: string, names: string -> bool)
    requires HasGroup([c] + u, names)
    ensures StartsGroup([c] + u, names) || HasGroup(u, names)
  {
    var t := [c] + u;
    var i :| GroupFrom(t, i, names);
    if i == 0 {
      assert t[0..] == t;
    } else {
      assert t[i..] == u[i - 1..];
      assert GroupFrom(u, i - 1, names);
    }
  }

  lemma {:induction false} NoGroupInPlain(x: string, y: string, names: string -> bool)
    requires forall i :: 0 <= i < |x| ==> x[i] != '{'
    requires !HasGroup(y, names)
    ensures !HasGroup(x + y, names)
    decreases |x|
  {
    if x == [] {
      assert x + y == y;
    } else {
      NoGroupInPlain(x[1..], y, names);
      assert x + y == [x[0]] + (x[1..] + y);
      if HasGroup(x + y, names) {
        GroupInSuffix(x[0], x[1..] + y, names);
      }
    }
  }

  /** A substitution that replaces every name of a set leaves no group with such a name. */
  lemma {:induction false} NoGroupLeft(t: string, f: Substitution, names: string -> bool)
    requires NonNested(t) && BraceFree(f)
    requires forall name :: names(name) ==> f(name).Some?
    ensures !HasGroup(Apply(t, f), names)
    decreases |t|
  {
    var name := GroupAt(t);
    if t == [] {
    } else if name.Some? && f(name.value).Some? {
      var rest := t[|name.value| + 2..];
      NonNestedSuffix(t, |name.value| + 2);
      NoGroupLeft(rest, f, names);
      NoGroupInPlain(f(name.value).value, Apply(rest, f), names);
    } else {
      NonNestedSuffix(t, 1);
      NoGroupLeft(t[1..], f, names);
      var u := Apply(t[1..], f);
      if HasGroup([t[0]] + u, names) {
        GroupInSuffix(t[0], u, names);
        NoGroupAtKeptBrace(t, f, names);
      }
    }
  }

  lemma NoGroupAtKeptBrace(t: string, f: Substitution, names: string -> bool)
    requires NonNested(t) && t != []
    requires forall name :: names(name) ==> f(name).Some?
    requires GroupAt(t).Some? ==> f(GroupAt(t).value).None?
    ensures !StartsGroup([t[0]] + Apply(t[1..], f), names)
  {
    if GroupAt(t).Some? {
      var name := GroupAt(t).value;
      GroupSurvives(t, f);
      GroupAtGroup(name, Apply(t[|name| + 2..], f));
    } else if t[0] == '{' {
      OpenBraceAlone(t);
      ApplyPlain(t[1..], [], f);
      assert t[1..] + [] == t[1..];
      assert [t[0]] + t[1..] == t;
    }
  }

  /** Text appended to a text that starts with a group does not change the group. */
  lemma GroupAtPrefix(u: string, rest: string)
    requires GroupAt(u).Some?
    ensures GroupAt(u + rest) == GroupAt(u)
  {
    var name := GroupAt(u).value;
    var tail := u[|name| + 2..];
    assert u + rest == Group(name) + (tail + rest);
    GroupAtGroup(name, tail + rest);
  }

  /** Cutting a text off creates no group. */
  lemma CutCreatesNoGroup(t: string, n: nat, names: string -> bool)
    requires n <= |t| && HasGroup(t[..n], names)
    ensures HasGroup(t, names)
  {
    var cut := t[..n];
    var i :| GroupFrom(cut, i, names);
    GroupAtPrefix(cut[i..], t[n..]);
    assert t[i..] == cut[i..] + t[n..];
    assert GroupFrom(t, i, names);
  }
}
