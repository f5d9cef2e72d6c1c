/**
 The doubly linked list that the pretty printer edits: one node for each token and, here and
 there, a line separator between two of them. The two insert functions are the only ones that
 change its links.
 */
module PrettyList {
  import opened FormTokens
  import opened Parens
  import opened PrettyLayout

  class Node {
    const tok: FormToken
    const isLineSeparator: bool
    /** The number of the token; for a separator, of the token it follows. */
    ghost const pos: nat
    var next: Node?
    var prev: Node?
    var paren: Node?
    var line: int
    var lineIndent: int
    var offset: int

    constructor Token(tok: FormToken, ghost pos: nat)
      ensures this.tok == tok && this.pos == pos && !isLineSeparator
      ensures next == null && prev == null && paren == null && line == 0 && lineIndent == 0
    {
      this.tok, this.pos, isLineSeparator := tok, pos, false;
      next, prev, paren, line, lineIndent, offset := null, null, null, 0, 0, 0;
    }

    constructor Separator(ghost pos: nat, prev: Node, next: Node)
      ensures this.pos == pos && isLineSeparator && this.prev == prev && this.next == next
    {
      this.tok, this.pos, isLineSeparator := Space, pos, true;
      this.next, this.prev, paren, line, lineIndent, offset := next, prev, null, -1, -1, -1;
    }
  }

  ghost function Present(nodes: seq<Node?>): (b: seq<bool>)
    ensures |b| == |nodes| && forall i :: 0 <= i < |b| ==> (b[i] <==> nodes[i] != null)
  {
    seq(|nodes|, i requires 0 <= i < |nodes| => nodes[i] != null)
  }

  /** What the nodes say of their lines. */
  ghost function LinesOf(nodes: seq<Node>): (l: seq<int>)
    reads nodes`line
    ensures |l| == |nodes| && forall i :: 0 <= i < |l| ==> l[i] == nodes[i].line
  {
    if nodes == [] then [] else LinesOf(nodes[..|nodes| - 1]) + [nodes[|nodes| - 1].line]
  }

  /** `seps[i]` is the separator behind token `i`, if there is one. */
  class TokenList {
    ghost const tokens: seq<FormToken>
    ghost var toks: seq<Node>
    ghost var seps: seq<Node?>
    ghost var repr: set<Node>

    constructor (tokens: seq<FormToken>, nodes: seq<Node>)
      ensures this.tokens == tokens && toks == nodes && |seps| == |nodes|
              && (forall i :: 0 <= i < |seps| ==> seps[i] == null)
      ensures repr == set i | 0 <= i < |nodes| :: nodes[i]
    {
      this.tokens, toks, seps, repr := tokens, nodes, seq(|nodes|, _ => null), set i | 0 <= i < |nodes| :: nodes[i];
    }

    ghost function After(i: nat): Node?
      requires i < |toks| == |seps|
      reads `toks, `seps
    {
      if seps[i] != null then seps[i] else if i + 1 < |toks| then toks[i + 1] else null
    }

    ghost function Before(i: nat): Node?
      requires i < |toks| == |seps|
      reads `toks, `seps
    {
      if i == 0 then null else if seps[i - 1] != null then seps[i - 1] else toks[i - 1]
    }

    ghost predicate TokenOk(i: nat)
      requires i < |toks| == |seps| == |tokens|
      reads `toks, `seps, `repr, repr`next, repr`prev
    {
      && toks[i] in repr && toks[i].pos == i && !toks[i].isLineSeparator && toks[i].tok == tokens[i]
      && toks[i].next == After(i) && toks[i].prev == Before(i)
    }

    /** No separator is last, and none follows a quote mark. */
    ghost predicate SepOk(i: nat)
      requires i < |toks| == |seps| == |tokens|
      reads `toks, `seps, `repr, repr`next, repr`prev
    {
      seps[i] != null ==>
        && seps[i] in repr && seps[i].pos == i && seps[i].isLineSeparator && i + 1 < |toks| && tokens[i] != Quote
        && seps[i].next == toks[i + 1] && seps[i].prev == toks[i]
    }

    ghost predicate Valid()
      reads `toks, `seps, `repr, repr`next, repr`prev
    {
      && |toks| == |seps| == |tokens| && WellFormed(tokens)
      && (forall i :: 0 <= i < |toks| ==> TokenOk(i))
      && (forall i :: 0 <= i < |toks| ==> SepOk(i))
    }

    /** Where the line breaks are: the only thing about the list that insertions change. */
    ghost function Breaks(): (b: seq<bool>)
      reads `seps
      ensures |b| == |seps| && forall i :: 0 <= i < |b| ==> (b[i] <==> seps[i] != null)
    {
      Present(seps)
    }

    ghost predicate IsToken(n: Node)
      reads `toks
    {
      n.pos < |toks| && toks[n.pos] == n && !n.isLineSeparator
    }

    /** Splices a separator in between two neighbouring tokens. */
    method Splice(first: Node, second: Node)
      requires Valid() && IsToken(first) && first.pos + 1 < |toks| && second == toks[first.pos + 1]
      requires seps[first.pos] == null && first.tok != Quote
      modifies this`seps, this`repr, first`next, second`prev
      ensures Valid() && toks == old(toks) && fresh(repr - old(repr)) && old(repr) <= repr
      ensures Breaks() == old(Breaks())[first.pos := true]
    {
      hide WellFormed;
      assert TokenOk(first.pos) && TokenOk(first.pos + 1);
      var nl := new Node.Separator(first.pos, first, second);
      first.next := nl;
      second.prev := nl;
      seps := seps[first.pos := nl];
      repr := repr + {nl};
      forall i | 0 <= i < |toks| ensures TokenOk(i) { assert old(TokenOk(i)); }
      forall i | 0 <= i < |toks| ensures SepOk(i) { assert old(SepOk(i)); }
    }

    method InsertNewlineAfter(at: Node)
      requires Valid() && IsToken(at)
      modifies this`seps, this`repr, repr`next, repr`prev
      ensures Valid() && toks == old(toks) && fresh(repr - old(repr)) && old(repr) <= repr
      ensures Breaks() == BrokenAfter(tokens, old(Breaks()), at.pos)
    {
      var node: Node := at;
      while node.tok == Quote && node.next != null
        invariant IsToken(node) && AfterQuotes(tokens, node.pos) == AfterQuotes(tokens, at.pos)
        decreases |toks| - node.pos
      {
        assert TokenOk(node.pos) && SepOk(node.pos) && TokenOk(node.pos + 1);
        node := node.next;
      }
      assert TokenOk(node.pos) && SepOk(node.pos) && (node.pos + 1 < |toks| ==> TokenOk(node.pos + 1));
      if node.next != null && !node.next.isLineSeparator {
        Splice(node, node.next);
      } else if node.next != null {
        assert seps[node.pos] != null;
        assert Breaks()[node.pos := true] == Breaks();
      }
    }

    method InsertNewlineBefore(at: Node)
      requires Valid() && IsToken(at)
      modifies this`seps, this`repr, repr`next, repr`prev
      ensures Valid() && toks == old(toks) && fresh(repr - old(repr)) && old(repr) <= repr
      ensures Breaks() == BrokenBefore(tokens, old(Breaks()), at.pos)
    {
      var node: Node := at;
      assert TokenOk(node.pos) && (node.pos > 0 ==> TokenOk(node.pos - 1) && SepOk(node.pos - 1));
      while node.prev != null && !node.prev.isLineSeparator && node.prev.tok == Quote
        invariant IsToken(node) && BeforeQuotes(tokens, node.pos) == BeforeQuotes(tokens, at.pos)
        invariant TokenOk(node.pos) && (node.pos > 0 ==> TokenOk(node.pos - 1) && SepOk(node.pos - 1))
        decreases node.pos
      {
        node := node.prev;
        assert TokenOk(node.pos) && (node.pos > 0 ==> TokenOk(node.pos - 1) && SepOk(node.pos - 1));
      }
      if node.prev != null && !node.prev.isLineSeparator {
        Splice(node.prev, node);
      } else if node.prev != null {
        assert Breaks()[node.pos - 1 := true] == Breaks();
      }
    }
  }
}
