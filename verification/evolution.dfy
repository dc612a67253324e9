/** The evolution-chain record of the species API and its flattening into the
    list of species names the evolution panel shows. */
module Evolution {

  /** One node of an evolution chain: the species' name and the species it
      evolves into, in the order the API lists them. The API guarantees a
      finite tree; an inductive datatype has no other values. */
  datatype Chain = Chain(name: string, evolvesTo: seq<Chain>)

  /** Pre-order flattening: the node's own name, then the flattening of each
      child in `evolvesTo` order. */
  function Flatten(c: Chain): (r: seq<string>)
    ensures |r| >= 1 && r[0] == c.name
    ensures |c.evolvesTo| == 0 ==> r == [c.name]
  {
    [c.name] + FlattenAll(c.evolvesTo)
  }

  /** The flattenings of a list of sibling chains, concatenated in order. It
      peels the LAST sibling, so extending the list by one sibling appends
      that sibling's names, as the page's `push` loop does. */
  function FlattenAll(cs: seq<Chain>): seq<string>
  {
    if |cs| == 0 then [] else FlattenAll(cs[..|cs| - 1]) + Flatten(cs[|cs| - 1])
  }

  /** The number of nodes of a chain. */
  function Size(c: Chain): nat
  {
    1 + SizeAll(c.evolvesTo)
  }

  function SizeAll(cs: seq<Chain>): nat
  {
    if |cs| == 0 then 0 else SizeAll(cs[..|cs| - 1]) + Size(cs[|cs| - 1])
  }

  /** `x` is the name of some node of `c`. */
  predicate Contains(c: Chain, x: string)
  {
    c.name == x || exists i :: 0 <= i < |c.evolvesTo| && Contains(c.evolvesTo[i], x)
  }

  /** `extractEvolutionNames` as the page writes it: start the list with the root's name and,
      for each child in order, append everything the recursive call returns. */
  method ExtractEvolutionNames(chain: Chain) returns (names: seq<string>)
    ensures names == Flatten(chain)
  {
    names := [chain.name];
    if |chain.evolvesTo| > 0 {
      var i := 0;
      while i < |chain.evolvesTo|
        invariant 0 <= i <= |chain.evolvesTo|
        invariant names == [chain.name] + FlattenAll(chain.evolvesTo[..i])
      {
        var sub := ExtractEvolutionNames(chain.evolvesTo[i]);
        assert chain.evolvesTo[..i + 1][..i] == chain.evolvesTo[..i];
        names := names + sub;
        i := i + 1;
      }
      assert chain.evolvesTo[..i] == chain.evolvesTo;
    }
  }

  /** Flattening a list of siblings distributes over splitting that list. */
  lemma {:induction false} FlattenAllAppend(a: seq<Chain>, b: seq<Chain>)
    ensures FlattenAll(a + b) == FlattenAll(a) + FlattenAll(b)
    decreases |b|
  {
    if |b| == 0 {
      assert a + b == a;
    } else {
      var b' := b[..|b| - 1];
      assert (a + b)[..|a + b| - 1] == a + b';
      assert (a + b)[|a + b| - 1] == b[|b| - 1];
      FlattenAllAppend(a, b');
    }
  }

  /** Pre-order, stated for any one child: the names of the i-th child form one
      contiguous block, preceded by the root and every earlier sibling's names
      and followed by every later sibling's names. */
  lemma {:induction false} PreOrder(c: Chain, i: nat)
    requires i < |c.evolvesTo|
    ensures Flatten(c) ==
      [c.name] + FlattenAll(c.evolvesTo[..i]) + Flatten(c.evolvesTo[i]) + FlattenAll(c.evolvesTo[i + 1..])
  {
    var cs := c.evolvesTo;
    var front := cs[..i + 1];
    var rest := cs[i + 1..];
    assert cs == front + rest;
    FlattenAllAppend(front, rest);
    assert front[..i] == cs[..i];
    assert FlattenAll(front) == FlattenAll(cs[..i]) + Flatten(cs[i]);
  }

  /** A root with exactly two children flattens to the root's name followed by
      the first child's names and then the second child's. */
  lemma TwoChildren(n: string, c1: Chain, c2: Chain)
    ensures Flatten(Chain(n, [c1, c2])) == [n] + Flatten(c1) + Flatten(c2)
  {
    assert [c1, c2][..1] == [c1];
    assert [c1][..0] == [];
    assert FlattenAll([c1]) == Flatten(c1);
    assert FlattenAll([c1, c2]) == Flatten(c1) + Flatten(c2);
  }

  /** One entry per node: the flattening is as long as the tree has nodes. */
  lemma {:induction false} FlattenLength(c: Chain)
    ensures |Flatten(c)| == Size(c)
  {
    FlattenAllLength(c.evolvesTo);
  }

  lemma {:induction false} FlattenAllLength(cs: seq<Chain>)
    ensures |FlattenAll(cs)| == SizeAll(cs)
  {
    if |cs| > 0 {
      FlattenAllLength(cs[..|cs| - 1]);
      FlattenLength(cs[|cs| - 1]);
    }
  }

  /** A name is listed exactly when it names some node of the tree. */
  lemma {:induction false} FlattenMembers(c: Chain, x: string)
    ensures x in Flatten(c) <==> Contains(c, x)
  {
    FlattenAllMembers(c.evolvesTo, x);
  }

  /** `FlattenMembers` for every name at once. */
  lemma FlattenListsAll(c: Chain)
    ensures forall x :: x in Flatten(c) <==> Contains(c, x)
  {
    forall x
      ensures x in Flatten(c) <==> Contains(c, x)
    {
      FlattenMembers(c, x);
    }
  }

  lemma {:induction false} FlattenAllMembers(cs: seq<Chain>, x: string)
    ensures x in FlattenAll(cs) <==> exists i :: 0 <= i < |cs| && Contains(cs[i], x)
  {
    if |cs| > 0 {
      var init := cs[..|cs| - 1];
      FlattenAllMembers(init, x);
      FlattenMembers(cs[|cs| - 1], x);
      if exists i :: 0 <= i < |cs| && Contains(cs[i], x) {
        var i :| 0 <= i < |cs| && Contains(cs[i], x);
        if i < |cs| - 1 {
          assert init[i] == cs[i];
        }
      }
      if exists i :: 0 <= i < |init| && Contains(init[i], x) {
        var i :| 0 <= i < |init| && Contains(init[i], x);
        assert cs[i] == init[i];
      }
    }
  }

  /** Bulbasaur's three-stage chain lists its stages in evolution order. */
  lemma BulbasaurChain()
    ensures Flatten(Chain("bulbasaur", [Chain("ivysaur", [Chain("venusaur", [])])]))
      == ["bulbasaur", "ivysaur", "venusaur"]
  {
  }
}
