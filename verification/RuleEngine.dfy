/** The rule table of the governance engine: a fixed array, sorted in place. */
module RuleEngine {
  import opened Wrappers
  import opened Rules

  /** What position i will hold once the rule now at j has reached its place among the first j. */
  ghost function Pending(a: seq<Rule>, j: nat, i: nat): seq<Rule>
    requires j <= i < |a|
  {
    Insert(a[..j], a[j]) + a[j + 1..i + 1]
  }

  /** One swap of the insertion sort: what is left to insert does not change. */
  lemma SwapStep(a: seq<Rule>, j: nat, i: nat)
    requires 0 < j <= i < |a| && a[j].priority > a[j - 1].priority
    ensures Pending(a[j := a[j - 1]][j - 1 := a[j]], j - 1, i) == Pending(a, j, i)
  {
    var b := a[j := a[j - 1]][j - 1 := a[j]];
    assert a[..j][..j - 1] == a[..j - 1] == b[..j - 1];
    assert b[j..i + 1] == [a[j - 1]] + a[j + 1..i + 1];
  }

  class Engine {
    const table: array<Rule>
    var count: nat

    ghost predicate Valid()
      reads this`count
    {
      table.Length == MAX_RULES && count <= MAX_RULES
    }

    /** The loaded rules, in the order they are tried. */
    ghost function Loaded(): seq<Rule>
      requires Valid()
      reads this`count, table
    {
      table[..count]
    }

    constructor ()
      ensures Valid() && count == 0 && fresh(table)
    {
      table := new Rule[MAX_RULES](_ => Rule("", 0, [], Allow));
      count := 0;
    }

    /** Moves the rule at i to its place among the sorted ones before it. */
    method SiftDown(i: nat)
      requires Valid() && i < count
      modifies table
      ensures table[..i + 1] == Insert(old(table[..i]), old(table[i]))
      ensures forall k {:trigger table[k]} :: i < k < table.Length ==> table[k] == old(table[k])
    {
      ghost var goal := Pending(table[..], i, i);
      var j := i;
      while j > 0 && table[j].priority > table[j - 1].priority
        invariant 0 <= j <= i
        invariant Pending(table[..], j, i) == goal
        invariant forall k {:trigger table[k]} :: i < k < table.Length ==> table[k] == old(table[k])
      {
        ghost var was := table[..];
        SwapStep(was, j, i);
        table[j], table[j - 1] := table[j - 1], table[j];
        assert table[..] == was[j := was[j - 1]][j - 1 := was[j]];
        j := j - 1;
      }
      ghost var a := table[..];
      assert table[..i + 1] == a[..j] + [a[j]] + a[j + 1..i + 1];
      assert old(table[..])[..i] == old(table[..i]) && old(table[..])[i + 1..i + 1] == [];
    }

    /** Insertion sort of all loaded rules. */
    method Sort()
      requires Valid()
      modifies table
      ensures Loaded() == Sorted(old(Loaded()))
      ensures forall k {:trigger table[k]} :: count <= k < table.Length ==> table[k] == old(table[k])
    {
      ghost var was := table[..count];
      var i := 0;
      while i < count
        invariant 0 <= i <= count
        invariant table[..i] == Sorted(was[..i])
        invariant forall k {:trigger table[k]} :: i <= k < table.Length ==> table[k] == old(table[k])
      {
        assert was[..i + 1][..i] == was[..i] && was[..i + 1][i] == table[i];
        SiftDown(i);
        i := i + 1;
      }
      assert was[..count] == was;
    }

    method LoadRules(rules: seq<Rule>)
      requires Valid()
      modifies table, this`count
      ensures Valid() && Loaded() == Sorted(if |rules| < MAX_RULES then rules else rules[..MAX_RULES])
    {
      var n := if |rules| < MAX_RULES then |rules| else MAX_RULES;
      for i := 0 to n
        invariant table[..i] == rules[..i]
      {
        table[i] := rules[i];
      }
      count := n;
      assert table[..n] == rules[..n] && (n == |rules| ==> rules[..n] == rules);
      Sort();
    }

    /** One more rule, if there is room. */
    method AddRule(rule: Rule) returns (ok: bool)
      requires Valid()
      modifies table, this`count
      ensures Valid() && ok == (old(count) < MAX_RULES)
      ensures Loaded() == if ok then Sorted(old(Loaded()) + [rule]) else old(Loaded())
    {
      if count >= MAX_RULES {
        return false;
      }
      table[count] := rule;
      count := count + 1;
      assert table[..count] == old(table[..count]) + [rule];
      Sort();
      return true;
    }

    method Find(name: string) returns (i: nat)
      requires Valid()
      ensures NameAt(Loaded(), name, i)
    {
      i := 0;
      while i < count && table[i].name != name
        invariant 0 <= i <= count && forall k {:trigger table[k]} :: 0 <= k < i ==> table[k].name != name
      {
        i := i + 1;
      }
    }

    /** The rules behind i move up by one, over the one at i. */
    method ShiftUp(i: nat)
      requires Valid() && i < count
      modifies table, this`count
      ensures Valid() && count == old(count) - 1
      ensures Loaded() == old(Loaded())[..i] + old(Loaded())[i + 1..]
    {
      ghost var was := table[..count];
      var j := i;
      while j < count - 1
        invariant i <= j <= count - 1
        invariant forall k {:trigger table[k]} :: 0 <= k < i ==> table[k] == was[k]
        invariant forall k {:trigger table[k]} :: i <= k < j ==> table[k] == was[k + 1]
        invariant forall k {:trigger table[k]} :: j <= k < count ==> table[k] == was[k]
        modifies table
      {
        table[j] := table[j + 1];
        j := j + 1;
      }
      table[count - 1] := Rule("", 0, [], Allow);
      count := count - 1;
      assert table[..count] == was[..i] + was[i + 1..];
    }

    /** The first rule of that name goes. */
    method RemoveRule(name: string) returns (ok: bool)
      requires Valid()
      modifies table, this`count
      ensures Valid() && (ok <==> Named(old(Loaded()), name))
      ensures Loaded() == Without(old(Loaded()), name)
    {
      var i := Find(name);
      WithoutAt(Loaded(), name, i);
      NamedIff(Loaded(), name, i);
      if i == count {
        return false;
      }
      ShiftUp(i);
      return true;
    }

    /** The first rule of that name is exchanged for another, which goes to its place by priority. */
    method ReplaceRule(name: string, rule: Rule) returns (ok: bool)
      requires Valid()
      modifies table
      ensures Valid() && (ok <==> Named(old(Loaded()), name))
      ensures Loaded() == if ok then Sorted(Replaced(old(Loaded()), name, rule)) else old(Loaded())
    {
      var i := Find(name);
      ReplacedAt(Loaded(), name, rule, i);
      NamedIff(Loaded(), name, i);
      if i == count {
        return false;
      }
      table[i] := rule;
      assert table[..count] == old(table[..count])[i := rule];
      Sort();
      return true;
    }

    /** The first loaded rule that matches. */
    method Evaluate(ctx: Context) returns (r: Option<Rule>)
      requires Valid()
      ensures r == First(Loaded(), ctx)
    {
      var i := 0;
      assert Loaded()[0..] == Loaded();
      while i < count
        invariant 0 <= i <= count
        invariant First(Loaded()[i..], ctx) == First(Loaded(), ctx)
      {
        assert Loaded()[i..][1..] == Loaded()[i + 1..] && Loaded()[i..][0] == table[i];
        var m := CheckAll(table[i], ctx);
        if m {
          return Some(table[i]);
        }
        i := i + 1;
      }
      return None;
    }
  }

  method CheckAll(r: Rule, ctx: Context) returns (m: bool)
    ensures m <==> Matches(r, ctx)
  {
    for i := 0 to |r.conditions|
      invariant forall k {:trigger r.conditions[k]} :: 0 <= k < i ==> Holds(r.conditions[k], ctx)
    {
      if !Holds(r.conditions[i], ctx) {
        return false;
      }
    }
    return true;
  }

  ghost function Without(s: seq<Rule>, name: string): seq<Rule>
  {
    if s == [] then [] else if s[0].name == name then s[1..] else [s[0]] + Without(s[1..], name)
  }

  ghost function Replaced(s: seq<Rule>, name: string, r: Rule): seq<Rule>
  {
    if s == [] then [] else if s[0].name == name then [r] + s[1..] else [s[0]] + Replaced(s[1..], name, r)
  }

  /** i is the first position of that name, or the length if there is none. */
  ghost predicate NameAt(s: seq<Rule>, name: string, i: nat)
  {
    && i <= |s| && (forall k {:trigger s[k]} :: 0 <= k < i ==> s[k].name != name)
    && (i < |s| ==> s[i].name == name)
  }

  ghost predicate Named(s: seq<Rule>, name: string) { exists k :: 0 <= k < |s| && s[k].name == name }

  lemma NamedIff(s: seq<Rule>, name: string, i: nat)
    requires NameAt(s, name, i)
    ensures Named(s, name) <==> i < |s|
  {
  }

  lemma {:induction false} WithoutAt(s: seq<Rule>, name: string, i: nat)
    requires NameAt(s, name, i)
    ensures Without(s, name) == if i == |s| then s else s[..i] + s[i + 1..]
    decreases |s|
  {
    if i > 0 {
      assert s[0].name != name;
      WithoutAt(s[1..], name, i - 1);
    }
  }

  lemma {:induction false} ReplacedAt(s: seq<Rule>, name: string, r: Rule, i: nat)
    requires NameAt(s, name, i)
    ensures Replaced(s, name, r) == if i == |s| then s else s[i := r]
    decreases |s|
  {
    if i > 0 {
      assert s[0].name != name;
      ReplacedAt(s[1..], name, r, i - 1);
    }
  }

  /** Removing a rule leaves the others in order. */
  lemma WithoutDescending(s: seq<Rule>, name: string, i: nat)
    requires Descending(s) && NameAt(s, name, i)
    ensures Descending(Without(s, name))
  {
    WithoutAt(s, name, i);
  }
}
