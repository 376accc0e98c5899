/** The hash table of symbols: chains of nodes, and the list of nodes to be used again
    (src/symbols.c, hash_string of src/util.c). */
module SymbolHash {
  import opened Symbols
  import opened Pass

  const SHASHSIZE := 1024

  /** hash_string, modulo the width of an unsigned int, and hash_symbol. */
  function HashString(s: string): nat {
    if s == [] then 5381 else (33 * HashString(s[..|s| - 1]) + s[|s| - 1] as nat) % 0x1_0000_0000
  }

  function HashSymbol(s: string): (h: nat)
    ensures h < SHASHSIZE
  {
    HashString(s) % SHASHSIZE
  }

  const ZEROED := Symbol(0, false, false, None)

  class Node {
    var name: string
    var sym: Symbol
    var next: Node?

    constructor ()
      ensures name == "" && sym == ZEROED && next == null
    {
      name, sym, next := "", ZEROED, null;
    }
  }

  ghost function At(chain: seq<Node>, i: nat): Node? {
    if i < |chain| then chain[i] else null
  }

  ghost predicate Linked(head: Node?, chain: seq<Node>)
    reads set i | 0 <= i < |chain| :: chain[i]
  {
    head == At(chain, 0) && forall i :: 0 <= i < |chain| ==> chain[i].next == At(chain, i + 1)
  }

  lemma LinkedTail(head: Node?, chain: seq<Node>)
    requires Linked(head, chain) && head != null
    ensures chain != [] && head == chain[0] && Linked(head.next, chain[1..])
  {
    forall i | 0 <= i < |chain| - 1 ensures chain[1..][i].next == At(chain[1..], i + 1) {
      assert chain[i + 1].next == At(chain, i + 2);
    }
  }

  lemma LinkedCons(node: Node, chain: seq<Node>)
    requires Linked(node.next, chain)
    ensures Linked(node, [node] + chain)
  {
  }

  lemma LinkedParts(head: Node?, chain: seq<Node>)
    requires Linked(head, chain)
    ensures head == At(chain, 0) && forall i :: 0 <= i < |chain| ==> chain[i].next == At(chain, i + 1)
  {
  }

  ghost function Reversed(nodes: seq<Node>): seq<Node> {
    if nodes == [] then [] else [nodes[|nodes| - 1]] + Reversed(nodes[..|nodes| - 1])
  }

  lemma NoneReversed()
    ensures Reversed([]) == []
  {
  }

  lemma ReversedNext(nodes: seq<Node>, k: nat)
    requires k < |nodes|
    ensures Reversed(nodes[..k + 1]) == [nodes[k]] + Reversed(nodes[..k])
  {
    assert nodes[..k + 1][..k] == nodes[..k];
  }

  /** Where a name stands first among the names of a chain. */
  function First(names: seq<string>, key: string): (i: nat)
    ensures i <= |names| && (i < |names| ==> names[i] == key)
    ensures forall j :: 0 <= j < i ==> names[j] != key
  {
    if names == [] || names[0] == key then 0 else 1 + First(names[1..], key)
  }

  lemma FirstCons(name: string, names: seq<string>, key: string)
    ensures First([name] + names, key) == if name == key then 0 else 1 + First(names, key)
  {
    assert ([name] + names)[1..] == names;
  }

  /** hash_string as the loop it is. */
  method Hash(s: string) returns (h: nat)
    ensures h == HashSymbol(s)
  {
    var hash := 5381;
    var i := 0;
    while i < |s|
      invariant 0 <= i <= |s| && hash == HashString(s[..i])
    {
      assert s[..i + 1][..i] == s[..i];
      hash := (hash * 32 + hash + s[i] as nat) % 0x1_0000_0000;
      i := i + 1;
    }
    assert s[..i] == s;
    h := hash % SHASHSIZE;
  }

  /** Clears the reference flags of one chain. */
  method ClearChain(head: Node?, ghost chain: seq<Node>)
    requires Linked(head, chain)
    modifies set i | 0 <= i < |chain| :: chain[i]
    ensures forall j :: 0 <= j < |chain| ==> Cleared(chain[j])
  {
    ghost var k := 0;
    var sym := head;
    while sym != null
      invariant 0 <= k <= |chain| && sym == At(chain, k)
      invariant forall j :: 0 <= j < |chain| ==>
          chain[j].name == old(chain[j].name) && chain[j].next == old(chain[j].next)
      invariant forall j :: 0 <= j < |chain| ==> chain[j].sym == old(chain[j].sym) || Cleared(chain[j])
      invariant forall j :: 0 <= j < k ==> Cleared(chain[j])
      decreases |chain| - k
    {
      assert sym == chain[k];
      sym.sym := sym.sym.(ref := false);
      sym := sym.next;
      k := k + 1;
    }
  }

  twostate predicate Cleared(node: Node)
    reads node
  {
    node.name == old(node.name) && node.next == old(node.next) && node.sym == old(node.sym).(ref := false)
  }

  class SymbolTable {
    const sHash: array<Node?>
    var symbolFreeList: Node?
    ghost var chains: seq<seq<Node>>
    ghost var names: seq<seq<string>>
    ghost var free: seq<Node>
    ghost var repr: set<Node>
    ghost var contents: Table

    ghost predicate Chained()
      reads this, sHash, repr
    {
      && sHash.Length == |chains| == |names| == SHASHSIZE
      && (forall h :: 0 <= h < |chains| ==> |chains[h]| == |names[h]|)
      && (forall h, i :: 0 <= h < |chains| && 0 <= i < |chains[h]| ==> chains[h][i] in repr)
      && (forall h :: 0 <= h < |chains| ==> Linked(sHash[h], chains[h]))
      && (forall h, i :: 0 <= h < |chains| && 0 <= i < |chains[h]| ==>
            chains[h][i].name == names[h][i] && HashSymbol(names[h][i]) == h)
    }

    ghost predicate FreeOk()
      reads this, sHash, repr
    {
      && (forall i :: 0 <= i < |free| ==> free[i] in repr)
      && Linked(symbolFreeList, free)
      && (forall i, j :: 0 <= i < j < |free| ==> free[i] != free[j])
      && (forall h, i, j :: 0 <= h < |chains| && 0 <= i < |chains[h]| && 0 <= j < |free| ==> chains[h][i] != free[j])
    }

    /** Nodes are in the chain of their name's hash, and for each name the newest one holds what the
        table holds. */
    ghost predicate Valid()
      reads this, sHash, repr
    {
      && Chained() && FreeOk()
      && forall key :: Holds(key)
    }

    ghost predicate Holds(key: string)
      requires Chained()
      reads this, sHash, repr
    {
      var h := HashSymbol(key);
      var i := First(names[h], key);
      if key in contents then i < |chains[h]| && chains[h][i].sym == contents[key] else i == |chains[h]|
    }

    /** The newest symbol of that name. */
    ghost function Newest(key: string): Node?
      requires Chained()
      reads this, sHash, repr
    {
      At(chains[HashSymbol(key)], First(names[HashSymbol(key)], key))
    }

    constructor ()
      ensures Valid() && contents == map[] && free == [] && fresh(sHash)
    {
      sHash := new Node?[SHASHSIZE](_ => null);
      symbolFreeList := null;
      chains, names := seq(SHASHSIZE, _ => []), seq(SHASHSIZE, _ => []);
      free, repr, contents := [], {}, map[];
    }

    /** The newest symbol of that name in that scope, if there is one. The special symbols ".", ".."
        and "..." are handled elsewhere. */
    method FindSymbol(name: string, scope: Scope) returns (sym: Node?)
      requires Valid() && name != [] && name != "." && name != ".." && name != "..."
      ensures sym == Newest(Mangle(name, scope))
      ensures sym == null <==> Mangle(name, scope) !in contents
      ensures sym != null ==> sym in repr && sym.name == Mangle(name, scope) && sym.sym == contents[Mangle(name, scope)]
    {
      hide Mangle, HashSymbol;
      var key := Mangle(name, scope);
      var hash := Hash(key);
      sym := sHash[hash];
      ghost var chain := chains[hash];
      ghost var i := 0;
      assert Linked(sHash[hash], chain);
      while sym != null && sym.name != key
        invariant 0 <= i <= |chain| && sym == At(chain, i)
        invariant forall j :: 0 <= j < i ==> chain[j].name != key
        decreases |chain| - i
      {
        sym := sym.next;
        i := i + 1;
      }
      assert i == First(names[hash], key);
      assert Holds(key);
    }

    /** A node that is in no chain and not on the free list. */
    ghost predicate Loose(node: Node)
      reads this
    {
      && (forall h, i :: 0 <= h < |chains| && 0 <= i < |chains[h]| ==> chains[h][i] != node)
      && (forall i :: 0 <= i < |free| ==> free[i] != node)
    }

    /** alloc_symbol: a node from the free list, or a new one; either way it is zeroed. */
    method AllocSymbol() returns (sym: Node)
      requires Valid()
      modifies this`symbolFreeList, this`free, this`repr, repr
      ensures Valid() && Loose(sym) && sym in repr && repr <= old(repr) + {sym}
      ensures sym.name == "" && sym.sym == ZEROED && sym.next == null
      ensures sym in old(repr) || fresh(sym)
      ensures if old(free) == [] then fresh(sym) && free == [] else [sym] + free == old(free)
      ensures forall n :: n in old(repr) && n != sym ==>
          n.name == old(n.name) && n.sym == old(n.sym) && n.next == old(n.next)
    {
      hide HashSymbol;
      if symbolFreeList != null {
        sym := symbolFreeList;
        LinkedTail(symbolFreeList, free);
        symbolFreeList := symbolFreeList.next;
        free := free[1..];
        sym.name, sym.sym, sym.next := "", ZEROED, null;
      } else {
        sym := new Node();
        repr := repr + {sym};
      }
      ChainsKept();
    }

    /** Where no node of a chain has changed the table is as it was. */
    twostate lemma ChainsKept()
      requires old(Valid()) && chains == old(chains) && names == old(names) && contents == old(contents)
          && sHash[..] == old(sHash[..])
      requires old(repr) <= repr
      requires forall h, i :: 0 <= h < |chains| && 0 <= i < |chains[h]| ==> unchanged(chains[h][i])
      ensures Chained() && forall key :: Holds(key)
    {
      hide HashSymbol;
      assert forall h :: 0 <= h < |chains| ==> sHash[h] == sHash[..][h];
      forall h | 0 <= h < |chains| ensures Linked(sHash[h], chains[h]) {
        assert old(Linked(sHash[h], chains[h]));
      }
      forall key ensures Holds(key) {
        assert old(Holds(key));
      }
    }

    /** create_symbol: a new symbol in front of its chain, which from now on is the one found. */
    method CreateSymbol(name: string, scope: Scope) returns (sym: Node)
      requires Valid() && name != []
      modifies this, sHash, repr
      ensures Valid() && contents == old(contents)[Mangle(name, scope) := CREATED] && sym == Newest(Mangle(name, scope))
      ensures free == if old(free) == [] then [] else old(free)[1..]
    {
      hide Mangle, HashSymbol, HashString, Chained, FreeOk;
      var key := Mangle(name, scope);
      sym := AllocSymbol();
      var hash := Hash(key);
      Prepend(sym, key, hash);
    }

    /** The node is filled in before it is linked. */
    method Prepend(sym: Node, key: string, hash: nat)
      requires Valid() && Loose(sym) && sym in repr && hash == HashSymbol(key)
      modifies this, sHash, repr
      ensures Valid() && contents == old(contents)[key := CREATED] && sym == Newest(key) && free == old(free)
    {
      hide HashSymbol, HashString;
      sym.name := key;
      sym.next := sHash[hash];
      sym.sym := CREATED;
      ChainsKept();
      Link(sym, key, hash);
    }

    method Link(sym: Node, key: string, hash: nat)
      requires Valid() && Loose(sym) && sym in repr && hash == HashSymbol(key)
      requires sym.name == key && sym.next == sHash[hash] && sym.sym == CREATED
      modifies this`chains, this`names, this`contents, sHash
      ensures Valid() && contents == old(contents)[key := CREATED] && sym == Newest(key)
    {
      hide HashSymbol, HashString, Linked, First;
      assert Linked(sHash[hash], chains[hash]);
      LinkedCons(sym, chains[hash]);
      sHash[hash] := sym;
      chains := chains[hash := [sym] + chains[hash]];
      names := names[hash := [key] + names[hash]];
      contents := contents[key := CREATED];
      assert forall h :: 0 <= h < SHASHSIZE && h != hash ==>
          old(Linked(sHash[h], chains[h])) && sHash[h] == old(sHash[h]);
      assert Chained();
      forall k ensures Holds(k) {
        assert old(Holds(k));
        FirstCons(key, old(names)[hash], k);
      }
      FirstCons(key, old(names)[hash], key);
      assert FreeOk() by {
        assert old(FreeOk());
      }
    }

    /** Values do not matter to the chains. */
    twostate lemma StillChained()
      requires old(Chained()) && old(FreeOk())
      requires unchanged(this`chains, this`names, this`free, this`symbolFreeList, this`repr, sHash)
      requires forall n :: n in repr ==> n.name == old(n.name) && n.next == old(n.next)
      ensures Chained() && FreeOk()
    {
      hide HashSymbol;
      forall h | 0 <= h < SHASHSIZE ensures Linked(sHash[h], chains[h]) {
        assert old(Linked(sHash[h], chains[h]));
      }
      assert old(Linked(symbolFreeList, free));
    }

    /** Giving a value to a symbol that has been found or created. */
    method SetSymbol(ghost key: string, node: Node, sym: Symbol)
      requires Valid() && node == Newest(key)
      modifies this`contents, node`sym
      ensures Valid() && contents == old(contents)[key := sym]
    {
      hide HashSymbol, HashString, Linked, FreeOk;
      assert Holds(key) && node.name == key;
      forall k | k in contents && k != key ensures Newest(k) != node {
        assert Holds(k);
      }
      node.sym := sym;
      contents := contents[key := sym];
      StillChained();
      forall k ensures Holds(k) {
        assert old(Holds(k));
        assert k in contents && k != key ==> old(Newest(k)) != node;
      }
    }

    /** Nothing has changed but that some nodes have lost their reference flag. */
    twostate predicate OnlyRefs()
      reads this, sHash, repr
    {
      && unchanged(this, sHash)
      && forall n :: n in repr ==>
           && n.name == old(n.name) && n.next == old(n.next)
           && (n.sym == old(n.sym) || n.sym == old(n.sym).(ref := false))
    }

    /** clear_all_symbol_refs */
    method ClearAllSymbolRefs()
      requires Valid()
      modifies this`contents, repr
      ensures Valid() && contents == ClearRefs(old(contents))
    {
      hide HashSymbol, HashString, First, Linked;
      var i := 0;
      while i < SHASHSIZE
        invariant 0 <= i <= SHASHSIZE && OnlyRefs()
        invariant forall h, j :: 0 <= h < i && 0 <= j < |chains[h]| ==> !chains[h][j].sym.ref
      {
        StillChained();
        assert Linked(sHash[i], chains[i]);
        ClearChain(sHash[i], chains[i]);
        i := i + 1;
      }
      StillChained();
      contents := ClearRefs(contents);
      forall key ensures Holds(key) {
        assert old(Holds(key));
      }
    }

    /** free_symbol_list: the nodes of an evaluated expression go to the free list, the last one first. */
    method FreeSymbolList(list: Node?, ghost nodes: seq<Node>)
      requires Valid() && Linked(list, nodes) && forall i :: 0 <= i < |nodes| ==> Loose(nodes[i])
      requires forall i, j :: 0 <= i < j < |nodes| ==> nodes[i] != nodes[j]
      modifies this`symbolFreeList, this`free, this`repr, set i | 0 <= i < |nodes| :: nodes[i]
      ensures Valid() && contents == old(contents)
      ensures free == Reversed(nodes) + old(free)
    {
      hide Chained, FreeOk, Linked, Holds, HashSymbol, Reversed, Loose;
      NoneReversed();
      assert forall i :: 0 <= i < |nodes| ==> nodes[i].next == At(nodes, i + 1) by { LinkedParts(list, nodes); }
      assert list == At(nodes, 0) by { LinkedParts(list, nodes); }
      assert Reversed(nodes[..0]) + free == free;
      var sym := list;
      ghost var k := 0;
      while sym != null
        invariant 0 <= k <= |nodes| && sym == At(nodes, k) && Valid() && contents == old(contents)
            && chains == old(chains)
        invariant free == Reversed(nodes[..k]) + old(free)
        invariant forall i :: k <= i < |nodes| ==> nodes[i].next == At(nodes, i + 1)
        invariant forall i :: k <= i < |nodes| ==> Loose(nodes[i])
        decreases |nodes| - k
      {
        var next := sym.next;
        ghost var rest := nodes[k + 1..];
        FreeSymbol(sym, rest);
        assert forall i :: k < i < |nodes| ==> nodes[i] == rest[i - k - 1];
        ReversedNext(nodes, k);
        assert [nodes[k]] + (Reversed(nodes[..k]) + old(free)) == Reversed(nodes[..k + 1]) + old(free);
        sym := next;
        k := k + 1;
      }
      assert nodes[..k] == nodes;
    }

    method FreeSymbol(sym: Node, ghost rest: seq<Node>)
      requires Valid() && Loose(sym)
      requires forall i :: 0 <= i < |rest| ==> Loose(rest[i]) && rest[i] != sym
      modifies this`symbolFreeList, this`free, this`repr, sym`next
      ensures Valid() && contents == old(contents) && chains == old(chains)
      ensures free == [sym] + old(free) && repr == old(repr) + {sym}
      ensures forall i :: 0 <= i < |rest| ==> Loose(rest[i])
    {
      hide HashSymbol, HashString, First;
      sym.next := symbolFreeList;
      symbolFreeList := sym;
      assert old(Linked(symbolFreeList, free));
      free := [sym] + free;
      repr := repr + {sym};
      ChainsKept();
    }
  }
}
