/** How often somebody occurs in a list. */
module Counting {

  predicate NoneTwice(people: seq<nat>) {
    forall j, k :: 0 <= j < k < |people| ==> people[j] != people[k]
  }

  function One(condition: bool): nat {
    if condition then 1 else 0
  }

  function Times(people: seq<nat>, u: nat): nat {
    if people == [] then 0
    else Times(people[..|people| - 1], u) + One(people[|people| - 1] == u)
  }

  lemma TimesAppend(people: seq<nat>, m: nat, u: nat)
    ensures Times(people + [m], u) == Times(people, u) + One(m == u)
  {
    assert (people + [m])[..|people|] == people;
  }

  lemma {:induction false} TimesOfMember(people: seq<nat>, u: nat)
    ensures Times(people, u) > 0 <==> u in people
  {
    if people != [] {
      TimesOfMember(people[..|people| - 1], u);
      assert people == people[..|people| - 1] + [people[|people| - 1]];
    }
  }

  predicate Once(people: seq<nat>, u: nat) {
    Times(people, u) <= 1
  }

  lemma {:induction false} NoneTwiceIffOnce(people: seq<nat>)
    ensures NoneTwice(people) <==> forall u: nat :: Once(people, u)
  {
    if people != [] {
      var front, last := people[..|people| - 1], people[|people| - 1];
      NoneTwiceIffOnce(front);
      TimesOfMember(front, last);
      assert people == front + [last];
      NoneTwiceAppend(front, last);
      forall u: nat
        ensures Times(people, u) == Times(front, u) + One(last == u)
      {
        TimesAppend(front, last, u);
      }
      if NoneTwice(front) && last !in front {
        forall u: nat
          ensures Once(people, u)
        {
          assert Once(front, u);
        }
      }
      if forall u: nat :: Once(people, u) {
        forall u: nat
          ensures Once(front, u)
        {
          assert Once(people, u);
        }
        assert Once(people, last);
      }
    }
  }

  lemma NoneTwiceAppend(front: seq<nat>, last: nat)
    ensures NoneTwice(front + [last]) <==> NoneTwice(front) && last !in front
  {
    var people := front + [last];
    if NoneTwice(people) {
      forall j, k | 0 <= j < k < |front|
        ensures front[j] != front[k]
      {
        assert people[j] != people[k];
      }
      forall j | 0 <= j < |front|
        ensures front[j] != last
      {
        assert people[j] != people[|front|];
      }
    }
  }
}
