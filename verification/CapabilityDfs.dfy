/** The explicit-stack walk of `revoke`: which tokens are still to be visited. */
module CapabilityDfs {
  import opened CapabilityModel

  type Tokens = map<Id, StoredToken>

  ghost predicate Unrelated(t: Tokens, a: Id, b: Id)
  {
    !Descends(t, a, b) && !Descends(t, b, a)
  }

  /** No token on the stack is under another one. */
  ghost predicate Independent(t: Tokens, stack: seq<Id>)
  {
    forall i, j :: 0 <= i < j < |stack| ==> Unrelated(t, stack[i], stack[j])
  }

  ghost predicate UnderStack(t: Tokens, u: Id, stack: seq<Id>)
  {
    exists i :: 0 <= i < |stack| && Descends(t, u, stack[i])
  }

  /** What is not removed yet is exactly what lies under the stack. */
  ghost predicate Frontier(t: Tokens, r: Id, removed: set<Id>, stack: seq<Id>)
  {
    && removed <= Subtree(t, r)
    && (forall i :: 0 <= i < |stack| ==> stack[i] in Subtree(t, r))
    && Independent(t, stack)
    && (forall u {:trigger UnderStack(t, u, stack)} :: u in Subtree(t, r) ==>
          (u !in removed <==> UnderStack(t, u, stack)))
  }

  lemma {:induction false} DescendsTransitive(t: Tokens, u: Id, v: Id, w: Id)
    requires Descends(t, u, v) && Descends(t, v, w)
    ensures Descends(t, u, w)
    decreases u
  {
    if u != v {
      DescendsTransitive(t, t[u].token.delegatedFrom, v, w);
    }
  }

  /** A proper descendant descends from a child. */
  lemma {:induction false} DescendsViaChild(t: Tokens, u: Id, v: Id) returns (c: Id)
    requires Descends(t, u, v) && u != v
    ensures IsChild(t, c, v) && Descends(t, u, c)
    decreases u
  {
    var p := t[u].token.delegatedFrom;
    if p == v {
      c := u;
    } else {
      c := DescendsViaChild(t, p, v);
    }
  }

  lemma ChildDescends(t: Tokens, n: Id, sign: Token -> Mac, c: Id, v: Id)
    requires Forest(t, n, sign) && IsChild(t, c, v) && v != 0
    ensures Descends(t, c, v) && !Descends(t, v, c)
  {
    assert TokenOk(t, n, sign, c);
    assert TokenOk(t, n, sign, v);
    SubtreeIsYounger(t, n, sign, v, c);
  }

  lemma SiblingsUnrelated(t: Tokens, n: Id, sign: Token -> Mac, a: Id, b: Id, v: Id)
    requires Forest(t, n, sign) && v != 0 && a != b
    requires IsChild(t, a, v) && IsChild(t, b, v)
    ensures Unrelated(t, a, b)
  {
    ChildDescends(t, n, sign, a, v);
    ChildDescends(t, n, sign, b, v);
  }

  /** What is unrelated to a token is unrelated to its children. */
  lemma ChildUnrelated(t: Tokens, n: Id, sign: Token -> Mac, c: Id, v: Id, x: Id)
    requires Forest(t, n, sign) && v != 0 && IsChild(t, c, v)
    requires Unrelated(t, x, v)
    ensures Unrelated(t, x, c)
  {
    ChildDescends(t, n, sign, c, v);
    if Descends(t, x, c) {
      DescendsTransitive(t, x, c, v);
    }
  }

  lemma PopKeepsIndependent(t: Tokens, n: Id, sign: Token -> Mac, stack: seq<Id>, id: Id, children: seq<Id>)
    requires Forest(t, n, sign) && id != 0
    requires Independent(t, stack + [id])
    requires forall c :: c in children ==> IsChild(t, c, id)
    requires Descending(children)
    ensures Independent(t, stack + children)
  {
    var before, after := stack + [id], stack + children;
    forall i, j | 0 <= i < j < |after| ensures Unrelated(t, after[i], after[j]) {
      if j < |stack| {
        assert after[i] == before[i] && after[j] == before[j];
      } else {
        assert after[j] in children;
        if i < |stack| {
          assert after[i] == before[i] && id == before[|stack|];
          ChildUnrelated(t, n, sign, after[j], id, after[i]);
        } else {
          assert after[i] in children;
          SiblingsUnrelated(t, n, sign, after[i], after[j], id);
        }
      }
    }
  }

  lemma PopCovers(t: Tokens, n: Id, sign: Token -> Mac, stack: seq<Id>, id: Id, children: seq<Id>, u: Id)
    requires Forest(t, n, sign) && id in t && id != 0
    requires Independent(t, stack + [id])
    requires forall c :: c in children <==> IsChild(t, c, id)
    ensures UnderStack(t, u, stack + children) <==> UnderStack(t, u, stack + [id]) && u != id
  {
    var before, after := stack + [id], stack + children;
    assert before[|stack|] == id;
    if UnderStack(t, u, before) && u != id {
      var i :| 0 <= i < |before| && Descends(t, u, before[i]);
      if i < |stack| {
        assert Descends(t, u, after[i]);
      } else {
        var c := DescendsViaChild(t, u, id);
        var k :| 0 <= k < |children| && children[k] == c;
        assert Descends(t, u, after[|stack| + k]);
      }
    }
    if UnderStack(t, u, after) {
      var i :| 0 <= i < |after| && Descends(t, u, after[i]);
      UnderNewIsUnderOld(t, n, sign, stack, id, children, u, i);
    }
  }

  lemma UnderNewIsUnderOld(t: Tokens, n: Id, sign: Token -> Mac, stack: seq<Id>, id: Id, children: seq<Id>, u: Id,
                           i: nat)
    requires Forest(t, n, sign) && id in t && id != 0
    requires Independent(t, stack + [id])
    requires forall c :: c in children ==> IsChild(t, c, id)
    requires i < |stack + children| && Descends(t, u, (stack + children)[i])
    ensures UnderStack(t, u, stack + [id]) && u != id
  {
    var before, after := stack + [id], stack + children;
    assert before[|stack|] == id;
    if i < |stack| {
      assert before[i] == after[i];
      assert Unrelated(t, before[i], before[|stack|]);
    } else {
      assert after[i] in children;
      ChildDescends(t, n, sign, after[i], id);
      DescendsTransitive(t, u, after[i], id);
      assert Descends(t, u, before[|stack|]);
    }
  }

  /** One round of the walk: pop a token, push its children, count it as removed. */
  lemma PopKeepsFrontier(t: Tokens, n: Id, sign: Token -> Mac, r: Id, removed: set<Id>, stack: seq<Id>, id: Id,
                         children: seq<Id>)
    requires Forest(t, n, sign) && r in t
    requires Frontier(t, r, removed, stack + [id])
    requires forall c :: c in children <==> IsChild(t, c, id)
    requires Descending(children)
    ensures id in Subtree(t, r) && id !in removed
    ensures Frontier(t, r, removed + {id}, stack + children)
  {
    var before, after := stack + [id], stack + children;
    assert before[|stack|] == id;
    assert id in Subtree(t, r);
    assert TokenOk(t, n, sign, id);
    assert UnderStack(t, id, before);
    PopKeepsIndependent(t, n, sign, stack, id, children);
    forall i | 0 <= i < |after| ensures after[i] in Subtree(t, r) {
      if i < |stack| {
        assert after[i] == before[i];
      } else {
        assert after[i] in children;
        SubtreeClosed(t, n, sign, r, after[i]);
      }
    }
    forall u | u in Subtree(t, r) ensures u !in removed + {id} <==> UnderStack(t, u, after) {
      PopCovers(t, n, sign, stack, id, children, u);
    }
  }

  lemma FrontierStarts(t: Tokens, n: Id, sign: Token -> Mac, r: Id)
    requires Forest(t, n, sign) && r in t
    ensures Frontier(t, r, {}, [r])
  {
    SubtreeClosed(t, n, sign, r, r);
    forall u | u in Subtree(t, r) ensures UnderStack(t, u, [r]) {
      assert Descends(t, u, [r][0]);
    }
  }

  lemma FrontierEnds(t: Tokens, r: Id, removed: set<Id>)
    requires Frontier(t, r, removed, [])
    ensures removed == Subtree(t, r)
  {
    forall u | u in Subtree(t, r) ensures u in removed {
      assert !UnderStack(t, u, []);
    }
  }
}
