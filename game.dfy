/** The board collaborators the search engine calls but the model does not define:
    legality and application of a placement (board.h, action.h), the random shuffle
    and the iteration order of a hash map. Each is an oracle with a stated property. */
module Game {
  import opened Wrappers
  import opened Pieces

  /** `cells` is board::size_x * board::size_y. `place(b, i, p)` is
      `action::place(i, p).apply(b)`: the new board when legal, None when illegal
      (the board is then unchanged). `empties(b)` counts the empty cells. */
  datatype Rules<!B> = Rules(cells: nat, place: (B, nat, Piece) -> Option<B>, empties: B -> nat)

  predicate Legal<B>(rules: Rules<B>, b: B, cell: nat, p: Piece) {
    rules.place(b, cell, p).Some?
  }

  /** Every legal placement fills an empty cell, so a random playout ends. */
  ghost predicate Decreasing<B(!new)>(rules: Rules<B>) {
    forall b: B, cell: nat, p: Piece ::
      rules.place(b, cell, p).Some? ==> rules.empties(rules.place(b, cell, p).value) < rules.empties(b)
  }

  /** The cells with a legal placement for `p` on `b`. */
  function LegalCells<B>(rules: Rules<B>, b: B, p: Piece): set<nat> {
    set cell: nat | cell < rules.cells && Legal(rules, b, cell, p)
  }

  /** No legal placement anywhere: the side to move has lost. */
  predicate Stuck<B>(rules: Rules<B>, b: B, p: Piece) {
    forall cell: nat :: cell < rules.cells ==> !Legal(rules, b, cell, p)
  }

  lemma StuckIffNoLegalCells<B>(rules: Rules<B>, b: B, p: Piece)
    ensures Stuck(rules, b, p) <==> LegalCells(rules, b, p) == {}
  {
    if !Stuck(rules, b, p) {
      var c: nat :| c < rules.cells && Legal(rules, b, c, p);
      assert c in LegalCells(rules, b, p);
    }
  }

  /** The cells 0 .. n-1 in increasing order (the initial `move_space`). */
  function Cells(n: nat): (s: seq<nat>)
    ensures |s| == n && forall i :: 0 <= i < n ==> s[i] == i
  {
    seq(n, i requires 0 <= i => i as nat)
  }

  /** A visiting order of all `n` cells: a permutation of `Cells(n)`. */
  ghost predicate IsOrder(ms: seq<nat>, n: nat) {
    multiset(ms) == multiset(Cells(n))
  }

  /** The shuffle oracle permutes whatever it is given. */
  ghost predicate ShuffleOk(shuffle: (seq<nat>, nat) -> seq<nat>) {
    forall s: seq<nat>, k: nat :: multiset(shuffle(s, k)) == multiset(s)
  }

  /** `ks` lists the keys of `keys`, each exactly once. */
  ghost predicate IsEnumeration(ks: seq<nat>, keys: set<nat>) {
    (forall i, j :: 0 <= i < j < |ks| ==> ks[i] != ks[j]) &&
    (forall x :: x in ks <==> x in keys)
  }

  /** The map-iteration oracle lists the keys of any map it is given. */
  ghost predicate EnumerateOk(enumerate: map<nat, nat> -> seq<nat>) {
    forall m: map<nat, nat> :: IsEnumeration(enumerate(m), m.Keys)
  }

  lemma {:induction false} CellsCount(n: nat, x: nat)
    ensures multiset(Cells(n))[x] == if x < n then 1 else 0
  {
    if n > 0 {
      assert Cells(n) == Cells(n - 1) + [n - 1];
      CellsCount(n - 1, x);
    } else {
      assert Cells(n) == [];
    }
  }

  /** An order visits exactly the cells 0 .. n-1. */
  lemma OrderMembers(ms: seq<nat>, n: nat)
    requires IsOrder(ms, n)
    ensures |ms| == n
    ensures forall i :: 0 <= i < |ms| ==> ms[i] < n
    ensures forall c: nat :: c < n ==> c in ms
  {
    calc {
      |ms|;
      |multiset(ms)|;
      |multiset(Cells(n))|;
      n;
    }
    forall i | 0 <= i < |ms| ensures ms[i] < n {
      assert ms[i] in multiset(ms);
      CellsCount(n, ms[i]);
    }
    forall c: nat | c < n ensures c in ms {
      CellsCount(n, c);
      assert c in multiset(ms);
    }
  }

  /** An order visits each cell once. */
  lemma OrderDistinct(ms: seq<nat>, n: nat)
    requires IsOrder(ms, n)
    ensures forall i, j :: 0 <= i < j < |ms| ==> ms[i] != ms[j]
  {
    forall i, j | 0 <= i < j < |ms| ensures ms[i] != ms[j] {
      if ms[i] == ms[j] {
        var x := ms[i];
        assert ms == ms[..j] + ms[j..];
        assert x in ms[..j];
        assert x in ms[j..];
        assert multiset(ms) == multiset(ms[..j]) + multiset(ms[j..]);
        assert multiset(ms)[x] >= 2;
        CellsCount(n, x);
        assert false;
      }
    }
  }

  /** The board after `moves` are placed in turn, the first by `p`, sides alternating;
      None as soon as one of them is illegal. */
  function Replay<B>(rules: Rules<B>, b: B, p: Piece, moves: seq<nat>): Option<B>
    decreases |moves|
  {
    if moves == [] then Some(b)
    else match Replay(rules, b, p, moves[..|moves| - 1])
      case None => None
      case Some(prev) => rules.place(prev, moves[|moves| - 1], Flip(p, |moves| - 1))
  }

  lemma ReplaySnoc<B>(rules: Rules<B>, b: B, p: Piece, moves: seq<nat>, m: nat, prev: B)
    requires Replay(rules, b, p, moves) == Some(prev)
    ensures Replay(rules, b, p, moves + [m]) == rules.place(prev, m, Flip(p, |moves|))
  {
    assert (moves + [m])[..|moves|] == moves;
  }

  /** Each placement of a replayed game fills a cell, so a game of k placements leaves
      at least k fewer empty cells: no playout is longer than the empty cells. */
  lemma {:induction false} ReplayEmpties<B(!new)>(rules: Rules<B>, b: B, p: Piece, moves: seq<nat>, final: B)
    requires Decreasing(rules) && Replay(rules, b, p, moves) == Some(final)
    ensures rules.empties(final) + |moves| <= rules.empties(b)
    decreases |moves|
  {
    if moves != [] {
      var prev := Replay(rules, b, p, moves[..|moves| - 1]).value;
      ReplayEmpties(rules, b, p, moves[..|moves| - 1], prev);
    }
  }
}
