/** AbstractOperation: the base undoable operation. It carries a mutable label
    and an insertion-ordered list of undo contexts that addContext keeps free
    of duplicates. Contexts are values of a type C compared with ==, which
    stands for Java's equals; the asymmetric IUndoContext.matches relation is
    a parameter `matches`, where matches(a, b) means a.matches(b). */
module Operations {

  /** No context occurs twice in the list. */
  ghost predicate NoDuplicates<C>(s: seq<C>) {
    forall i, j :: 0 <= i < j < |s| ==> s[i] != s[j]
  }

  /** Whether `context` is related to some stored context in either direction. */
  ghost predicate Related<C>(s: seq<C>, context: C, matches: (C, C) -> bool) {
    exists i :: 0 <= i < |s| && (matches(context, s[i]) || matches(s[i], context))
  }

  /** The list after addContext(c): unchanged when c is already present,
      otherwise c appended at the end. */
  function WithContext<C(==)>(s: seq<C>, c: C): (r: seq<C>)
    ensures c in r
    ensures |r| == if c in s then |s| else |s| + 1
    ensures r[..|s|] == s
    ensures c in s ==> r == s
    ensures c !in s ==> r[|s|] == c
  {
    if c in s then s else s + [c]
  }

  /** The position of the first occurrence of c. */
  function FirstIndex<C(==)>(s: seq<C>, c: C): (k: nat)
    requires c in s
    ensures k < |s| && s[k] == c && c !in s[..k]
  {
    if s[0] == c then 0 else 1 + FirstIndex(s[1..], c)
  }

  /** The list after List.remove(c): the first occurrence of c is dropped. */
  function RemoveFirst<C(==)>(s: seq<C>, c: C): (r: seq<C>)
    ensures |r| == if c in s then |s| - 1 else |s|
  {
    if s == [] then []
    else if s[0] == c then s[1..]
    else
      assert c in s <==> c in s[1..] by {
        assert s == [s[0]] + s[1..];
      }
      [s[0]] + RemoveFirst(s[1..], c)
  }

  /** Removal takes away one copy of c, if there is one, and nothing else. */
  lemma {:induction false} RemoveFirstMultiset<C>(s: seq<C>, c: C)
    ensures multiset(RemoveFirst(s, c)) == multiset(s) - multiset{c}
  {
    if s != [] {
      var t := s[1..];
      assert s == [s[0]] + t;
      assert multiset(s) == multiset{s[0]} + multiset(t);
      if s[0] != c {
        RemoveFirstMultiset(t, c);
        var r := RemoveFirst(t, c);
        assert multiset([s[0]] + r) == multiset{s[0]} + multiset(r);
      }
    }
  }

  /** Adding to a duplicate-free list keeps it duplicate-free. */
  lemma WithContextKeepsNoDuplicates<C>(s: seq<C>, c: C)
    requires NoDuplicates(s)
    ensures NoDuplicates(WithContext(s, c))
  {
  }

  /** Removing an absent context changes nothing. */
  lemma {:induction false} RemoveAbsent<C>(s: seq<C>, c: C)
    requires c !in s
    ensures RemoveFirst(s, c) == s
  {
    if s != [] {
      assert c !in s[1..];
      RemoveAbsent(s[1..], c);
      assert s == [s[0]] + s[1..];
    }
  }

  /** Removing a present context drops exactly its first occurrence and keeps
      the other contexts in their original order. */
  lemma {:induction false} RemoveFirstOccurrence<C>(s: seq<C>, c: C)
    requires c in s
    ensures RemoveFirst(s, c) == s[..FirstIndex(s, c)] + s[FirstIndex(s, c) + 1..]
  {
    if s[0] != c {
      var t := s[1..];
      assert s == [s[0]] + t;
      assert c in t;
      RemoveFirstOccurrence(t, c);
      var k := FirstIndex(t, c);
      assert FirstIndex(s, c) == k + 1;
      calc {
        RemoveFirst(s, c);
        [s[0]] + RemoveFirst(t, c);
        [s[0]] + (t[..k] + t[k + 1..]);
        { assert [s[0]] + t[..k] == s[..k + 1]; assert t[k + 1..] == s[k + 2..]; }
        s[..k + 1] + s[k + 2..];
      }
    }
  }

  /** Element i of s with position k cut out. */
  lemma CutAt<C>(s: seq<C>, k: nat, i: nat)
    requires k < |s| && i < |s| - 1
    ensures (s[..k] + s[k + 1..])[i] == if i < k then s[i] else s[i + 1]
  {
  }

  /** On a duplicate-free list, removal leaves the list duplicate-free and
      the context absent. */
  lemma RemoveKeepsNoDuplicates<C>(s: seq<C>, c: C)
    requires NoDuplicates(s)
    ensures NoDuplicates(RemoveFirst(s, c))
    ensures c !in RemoveFirst(s, c)
  {
    if c in s {
      RemoveFirstOccurrence(s, c);
      var k := FirstIndex(s, c);
      var r := s[..k] + s[k + 1..];
      assert |r| == |s| - 1;
      forall i, j | 0 <= i < j < |r| ensures r[i] != r[j] {
        CutAt(s, k, i);
        CutAt(s, k, j);
      }
      forall i | 0 <= i < |r| ensures r[i] != c {
        CutAt(s, k, i);
      }
    } else {
      RemoveAbsent(s, c);
    }
  }

  /** hasContext on an empty list answers false, whatever `matches` is. */
  lemma EmptyHasNoContext<C>(context: C, matches: (C, C) -> bool)
    ensures !Related([], context, matches)
  {
  }

  /** Once c has been added, every context that matches c in at least one
      direction is reported by hasContext; in particular c itself when
      matches is reflexive. */
  lemma AddedContextIsReported<C>(s: seq<C>, c: C, d: C, matches: (C, C) -> bool)
    requires matches(d, c) || matches(c, d)
    ensures Related(WithContext(s, c), d, matches)
  {
  }

  /** The debugging rendering of a context list: each context followed by a
      comma. */
  function Listing<C>(cs: seq<C>, render: C -> string): (r: string)
    ensures cs == [] <==> r == []
    ensures cs != [] ==> r[|r| - 1] == ','
  {
    if cs == [] then ""
    else Listing(cs[..|cs| - 1], render) + render(cs[|cs| - 1]) + ","
  }

  class AbstractOperation<C(==)> {
    var contexts: seq<C>
    var labelText: string

    /** The list holds no context twice; addContext and removeContext keep it so. */
    ghost predicate Valid()
      reads this
    {
      NoDuplicates(contexts)
    }

    /** A new operation has the given label and no contexts. */
    constructor (label0: string)
      ensures GetLabel() == label0 && contexts == []
      ensures Valid()
    {
      this.labelText := label0;
      contexts := [];
    }

    method AddContext(context: C)
      modifies this`contexts
      ensures contexts == WithContext(old(contexts), context)
      ensures old(Valid()) ==> Valid()
      ensures GetLabel() == old(GetLabel())
    {
      if Valid() {
        WithContextKeepsNoDuplicates(contexts, context);
      }
      if context !in contexts {
        contexts := contexts + [context];
      }
    }

    method RemoveContext(context: C)
      modifies this`contexts
      ensures contexts == RemoveFirst(old(contexts), context)
      ensures old(Valid()) ==> Valid() && context !in contexts
      ensures GetLabel() == old(GetLabel())
    {
      if Valid() {
        RemoveKeepsNoDuplicates(contexts, context);
      }
      contexts := RemoveFirst(contexts, context);
    }

    /** Scans the contexts in order and answers true at the first one that
        matches the argument in either direction. */
    method HasContext(context: C, matches: (C, C) -> bool) returns (found: bool)
      ensures found <==> Related(contexts, context, matches)
    {
      var i := 0;
      while i < |contexts|
        invariant 0 <= i <= |contexts|
        invariant forall j :: 0 <= j < i ==> !matches(context, contexts[j]) && !matches(contexts[j], context)
      {
        var otherContext := contexts[i];
        if matches(context, otherContext) || matches(otherContext, context) {
          return true;
        }
        i := i + 1;
      }
      return false;
    }

    /** A fresh array holding the contexts in list order. */
    method GetContexts() returns (a: array<C>)
      ensures fresh(a)
      ensures a[..] == contexts
    {
      var cs := contexts;
      a := new C[|cs|](i requires 0 <= i < |cs| => cs[i]);
    }

    /** The label set by the constructor or by the last SetLabel. */
    function GetLabel(): string
      reads this
    {
      labelText
    }

    method SetLabel(name: string)
      modifies this`labelText
      ensures GetLabel() == name
      ensures contexts == old(contexts)
    {
      labelText := name;
    }

    /** The capability predicates default to true. */
    predicate CanExecute()
      ensures CanExecute()
    {
      true
    }

    predicate CanUndo()
      ensures CanUndo()
    {
      true
    }

    predicate CanRedo()
      ensures CanRedo()
    {
      true
    }

    /** Nothing to dispose: the operation's state is left as it was. */
    method Dispose()
      ensures contexts == old(contexts) && GetLabel() == old(GetLabel())
    {
    }

    /** The label, then the contexts each followed by a comma, in parentheses. */
    method ToString(render: C -> string) returns (s: string)
      ensures s == GetLabel() + "(" + Listing(contexts, render) + ")"
    {
      s := GetLabel() + "(";
      var cs := GetContexts();
      var i := 0;
      while i < cs.Length
        invariant 0 <= i <= cs.Length
        invariant s == labelText + "(" + Listing(cs[..i], render)
      {
        assert cs[..i + 1][..i] == cs[..i];
        s := s + render(cs[i]) + ",";
        i := i + 1;
      }
      assert cs[..] == cs[..cs.Length];
      s := s + ")";
    }
  }
}
