/**
  The player table a maze room keeps, and that every client mirrors: an
  object keyed by socket id. Objects enumerate their keys in insertion
  order, an assignment to an existing key keeps its place, and `delete`
  drops the key; a `Roster` is that object as a list of entries.
*/
module Players {
  import opened Wrappers
  import opened Maze

  datatype Player = Player(name: string, pos: Pos, score: int)

  datatype Entry = Entry(id: string, player: Player)

  type Roster = seq<Entry>

  /** `{ name, pos: {x: 0, y: 0}, score: 0 }`, the record a new player gets. */
  function Fresh(name: string): Player {
    Player(name, Origin, 0)
  }

  /** The keys, in enumeration order. */
  function Ids(ps: Roster): seq<string> {
    if ps == [] then [] else [ps[0].id] + Ids(ps[1..])
  }

  predicate Distinct(xs: seq<string>) {
    forall i, j :: 0 <= i < j < |xs| ==> xs[i] != xs[j]
  }

  /** What an object guarantees of its keys: none occurs twice. */
  predicate UniqueIds(ps: Roster) {
    Distinct(Ids(ps))
  }

  /** `players[id]`: the player stored under `id`, if any. */
  function Lookup(ps: Roster, id: string): (found: Option<Player>)
    ensures found.Some? <==> id in Ids(ps)
  {
    if ps == [] then None
    else if ps[0].id == id then Some(ps[0].player)
    else Lookup(ps[1..], id)
  }

  /** `players[id] = p`: an existing key keeps its place, a new key goes
      last; no other key's player changes. */
  function Put(ps: Roster, id: string, p: Player): (r: Roster)
    ensures Lookup(r, id) == Some(p)
    ensures forall other {:trigger Lookup(r, other)} :: other != id ==> Lookup(r, other) == Lookup(ps, other)
    ensures Ids(r) == if id in Ids(ps) then Ids(ps) else Ids(ps) + [id]
  {
    if ps == [] then [Entry(id, p)]
    else if ps[0].id == id then [Entry(id, p)] + ps[1..]
    else
      var rest := Put(ps[1..], id, p);
      assert ([ps[0]] + rest)[1..] == rest;
      [ps[0]] + rest
  }

  /** `delete players[id]`: the key is gone, every other key keeps its
      player. */
  function Remove(ps: Roster, id: string): (r: Roster)
    ensures Lookup(r, id) == None
    ensures forall other {:trigger Lookup(r, other)} :: other != id ==> Lookup(r, other) == Lookup(ps, other)
    ensures forall x :: x in Ids(r) <==> x in Ids(ps) && x != id
  {
    if ps == [] then []
    else if ps[0].id == id then Remove(ps[1..], id)
    else
      var rest := Remove(ps[1..], id);
      assert ([ps[0]] + rest)[1..] == rest;
      [ps[0]] + rest
  }

  lemma IdsIndex(ps: Roster)
    ensures |Ids(ps)| == |ps|
    ensures forall i :: 0 <= i < |ps| ==> Ids(ps)[i] == ps[i].id
  {
    if ps != [] {
      IdsIndex(ps[1..]);
    }
  }

  lemma DistinctCons(a: string, xs: seq<string>)
    ensures Distinct([a] + xs) <==> a !in xs && Distinct(xs)
  {
    if a !in xs && Distinct(xs) {
      forall i, j | 0 <= i < j < |[a] + xs|
        ensures ([a] + xs)[i] != ([a] + xs)[j]
      {
        assert ([a] + xs)[j] == xs[j - 1];
        if i > 0 {
          assert ([a] + xs)[i] == xs[i - 1];
        }
      }
    }
    if Distinct([a] + xs) {
      forall i, j | 0 <= i < j < |xs|
        ensures xs[i] != xs[j]
      {
        assert xs[i] == ([a] + xs)[i + 1] && xs[j] == ([a] + xs)[j + 1];
      }
      forall i | 0 <= i < |xs|
        ensures xs[i] != a
      {
        assert ([a] + xs)[0] == a && xs[i] == ([a] + xs)[i + 1];
      }
    }
  }

  /** In a table with distinct keys, the key at index k finds the player
      at index k: the key view and the enumeration view agree. */
  lemma {:induction false} LookupAtIndex(ps: Roster, k: int)
    requires UniqueIds(ps) && 0 <= k < |ps|
    ensures Lookup(ps, ps[k].id) == Some(ps[k].player)
    decreases |ps|
  {
    if k > 0 {
      DistinctCons(ps[0].id, Ids(ps[1..]));
      IdsIndex(ps[1..]);
      assert ps[k].id == Ids(ps[1..])[k - 1];
      LookupAtIndex(ps[1..], k - 1);
    }
  }

  lemma {:induction false} PutKeepsUnique(ps: Roster, id: string, p: Player)
    requires UniqueIds(ps)
    ensures UniqueIds(Put(ps, id, p))
  {
    var ids := Ids(ps);
    if id !in ids {
      forall i, j | 0 <= i < j < |ids + [id]|
        ensures (ids + [id])[i] != (ids + [id])[j]
      {
        if j == |ids| {
          assert (ids + [id])[i] == ids[i];
        } else {
          assert (ids + [id])[i] == ids[i] && (ids + [id])[j] == ids[j];
        }
      }
    }
  }

  lemma {:induction false} RemoveKeepsUnique(ps: Roster, id: string)
    requires UniqueIds(ps)
    ensures UniqueIds(Remove(ps, id))
  {
    if ps != [] {
      DistinctCons(ps[0].id, Ids(ps[1..]));
      RemoveKeepsUnique(ps[1..], id);
      if ps[0].id != id {
        var rest := Remove(ps[1..], id);
        assert Ids(Remove(ps, id)) == [ps[0].id] + Ids(rest) by {
          assert ([ps[0]] + rest)[1..] == rest;
        }
        DistinctCons(ps[0].id, Ids(rest));
      }
    }
  }

  /** Deleting a key keeps the other keys in their order. */
  lemma {:induction false} RemoveKeepsOrder(ps: Roster, k: int)
    requires UniqueIds(ps) && 0 <= k < |ps|
    ensures Remove(ps, ps[k].id) == ps[..k] + ps[k + 1..]
  {
    var id := ps[k].id;
    assert Ids(ps) == [ps[0].id] + Ids(ps[1..]);
    DistinctCons(ps[0].id, Ids(ps[1..]));
    if k == 0 {
      RemoveAbsent(ps[1..], id);
      assert ps[..0] + ps[1..] == ps[1..];
    } else {
      assert ps[1..][k - 1] == ps[k];
      assert id in Ids(ps[1..]) by {
        IdsIndex(ps[1..]);
        assert Ids(ps[1..])[k - 1] == id;
      }
      assert Remove(ps, id) == [ps[0]] + Remove(ps[1..], id);
      RemoveKeepsOrder(ps[1..], k - 1);
      assert [ps[0]] + (ps[1..][..k - 1] + ps[1..][k..]) == ps[..k] + ps[k + 1..];
    }
  }

  lemma {:induction false} RemoveAbsent(ps: Roster, id: string)
    requires id !in Ids(ps)
    ensures Remove(ps, id) == ps
  {
    if ps != [] {
      assert Ids(ps) == [ps[0].id] + Ids(ps[1..]);
      RemoveAbsent(ps[1..], id);
    }
  }

  function ToOrigin(e: Entry): Entry {
    Entry(e.id, e.player.(pos := Origin))
  }

  function ToStart(e: Entry): Entry {
    Entry(e.id, e.player.(pos := Origin, score := 0))
  }

  /** Every player sent back to the start cell: the same keys in the same
      order, each keeping its name and score. */
  function AllAtOrigin(ps: Roster): (r: Roster)
    ensures Ids(r) == Ids(ps)
    ensures forall id {:trigger Lookup(r, id)} :: Lookup(r, id).Some? == Lookup(ps, id).Some?
    ensures forall id {:trigger Lookup(r, id)} :: Lookup(r, id).Some? ==> Lookup(r, id).value == Lookup(ps, id).value.(pos := Origin)
  {
    if ps == [] then []
    else
      var rest := AllAtOrigin(ps[1..]);
      assert ([ToOrigin(ps[0])] + rest)[1..] == rest;
      [ToOrigin(ps[0])] + rest
  }

  /** Every player at the start cell with no points: the same keys in the
      same order, each keeping its name. */
  function AllRestarted(ps: Roster): (r: Roster)
    ensures Ids(r) == Ids(ps)
    ensures forall id {:trigger Lookup(r, id)} :: Lookup(r, id).Some? == Lookup(ps, id).Some?
    ensures forall id {:trigger Lookup(r, id)} :: Lookup(r, id).Some? ==> Lookup(r, id).value == Lookup(ps, id).value.(pos := Origin, score := 0)
  {
    if ps == [] then []
    else
      var rest := AllRestarted(ps[1..]);
      assert ([ToStart(ps[0])] + rest)[1..] == rest;
      [ToStart(ps[0])] + rest
  }

  lemma {:induction false} AllAtOriginIndex(ps: Roster)
    ensures |AllAtOrigin(ps)| == |ps|
    ensures forall i :: 0 <= i < |ps| ==> AllAtOrigin(ps)[i] == ToOrigin(ps[i])
  {
    if ps != [] {
      AllAtOriginIndex(ps[1..]);
    }
  }

  lemma {:induction false} AllRestartedIndex(ps: Roster)
    ensures |AllRestarted(ps)| == |ps|
    ensures forall i :: 0 <= i < |ps| ==> AllRestarted(ps)[i] == ToStart(ps[i])
  {
    if ps != [] {
      AllRestartedIndex(ps[1..]);
    }
  }

  /** `Object.values(players).forEach(p => p.pos = {x: 0, y: 0})`. */
  method ResetPositions(ps: Roster) returns (r: Roster)
    ensures r == AllAtOrigin(ps)
  {
    r := ps;
    var i := 0;
    while i < |r|
      invariant 0 <= i <= |r| == |ps|
      invariant forall j :: 0 <= j < i ==> r[j] == ToOrigin(ps[j])
      invariant forall j :: i <= j < |r| ==> r[j] == ps[j]
    {
      r := r[i := ToOrigin(r[i])];
      i := i + 1;
    }
    AllAtOriginIndex(ps);
  }

  /** The `startGame` loop: every player back at the start with score 0. */
  method ResetForRun(ps: Roster) returns (r: Roster)
    ensures r == AllRestarted(ps)
  {
    r := ps;
    var i := 0;
    while i < |r|
      invariant 0 <= i <= |r| == |ps|
      invariant forall j :: 0 <= j < i ==> r[j] == ToStart(ps[j])
      invariant forall j :: i <= j < |r| ==> r[j] == ps[j]
    {
      r := r[i := ToStart(r[i])];
      i := i + 1;
    }
    AllRestartedIndex(ps);
  }

  /** Resetting twice is resetting once, and a restarted roster is already
      at the origin: the client's own reset after `gameStarted` or
      `nextLevel` leaves the server's reset roster as it is. */
  lemma {:induction false} ResetIsIdempotent(ps: Roster)
    ensures AllAtOrigin(AllAtOrigin(ps)) == AllAtOrigin(ps)
    ensures AllAtOrigin(AllRestarted(ps)) == AllRestarted(ps)
  {
    if ps != [] {
      ResetIsIdempotent(ps[1..]);
      var a := AllAtOrigin(ps);
      assert a[0] == ToOrigin(ps[0]) && a[1..] == AllAtOrigin(ps[1..]);
      var b := AllRestarted(ps);
      assert b[0] == ToStart(ps[0]) && b[1..] == AllRestarted(ps[1..]);
    }
  }

  /* ----- The leaderboard ----- */

  /** One line of the final standings: `{ name, score }`. */
  datatype Standing = Standing(name: string, score: int)

  /** `Object.values(players).map(p => ({ name: p.name, score: p.score }))`. */
  function Standings(ps: Roster): (r: seq<Standing>)
    ensures |r| == |ps|
    ensures forall i :: 0 <= i < |ps| ==> r[i] == Standing(ps[i].player.name, ps[i].player.score)
  {
    if ps == [] then [] else [Standing(ps[0].player.name, ps[0].player.score)] + Standings(ps[1..])
  }

  predicate Descending(xs: seq<Standing>) {
    forall i, j :: 0 <= i < j < |xs| ==> xs[i].score >= xs[j].score
  }

  /** The entries scoring exactly v, in their order. */
  function Scoring(xs: seq<Standing>, v: int): seq<Standing> {
    if xs == [] then []
    else if xs[0].score == v then [xs[0]] + Scoring(xs[1..], v)
    else Scoring(xs[1..], v)
  }

  /** Put x in front of the first entry that does not beat it. */
  function Insert(x: Standing, ys: seq<Standing>): (r: seq<Standing>)
    ensures multiset(r) == multiset(ys) + multiset{x}
  {
    if ys == [] || ys[0].score <= x.score then [x] + ys
    else
      assert ys == [ys[0]] + ys[1..];
      [ys[0]] + Insert(x, ys[1..])
  }

  /** Inserting an entry no better than `bound` into entries no better
      than `bound` gives entries no better than `bound`. */
  lemma {:induction false} InsertBounded(x: Standing, ys: seq<Standing>, bound: int)
    requires x.score <= bound
    requires forall i :: 0 <= i < |ys| ==> ys[i].score <= bound
    ensures forall i :: 0 <= i < |Insert(x, ys)| ==> Insert(x, ys)[i].score <= bound
  {
    if ys != [] && ys[0].score > x.score {
      var rest := Insert(x, ys[1..]);
      InsertBounded(x, ys[1..], bound);
      assert Insert(x, ys) == [ys[0]] + rest;
    }
  }

  lemma {:induction false} InsertKeepsOrder(x: Standing, ys: seq<Standing>)
    requires Descending(ys)
    ensures Descending(Insert(x, ys))
  {
    if ys != [] && ys[0].score > x.score {
      var rest := Insert(x, ys[1..]);
      InsertKeepsOrder(x, ys[1..]);
      InsertBounded(x, ys[1..], ys[0].score);
      ConsDescending(ys[0], rest);
      assert Insert(x, ys) == [ys[0]] + rest;
    }
  }

  /** An entry no worse than every entry of a best-first list can go in
      front of it. */
  lemma ConsDescending(h: Standing, rest: seq<Standing>)
    requires Descending(rest)
    requires forall i :: 0 <= i < |rest| ==> rest[i].score <= h.score
    ensures Descending([h] + rest)
  {
    var r := [h] + rest;
    forall i, j | 0 <= i < j < |r|
      ensures r[i].score >= r[j].score
    {
      assert r[j] == rest[j - 1];
      if i > 0 {
        assert r[i] == rest[i - 1];
      }
    }
  }

  /** A stable sort by non-increasing score, what `sort((a, b) => b.score -
      a.score)` does: the result is ordered and holds exactly the input. */
  function Ranked(xs: seq<Standing>): (r: seq<Standing>)
    ensures Descending(r)
    ensures multiset(r) == multiset(xs)
  {
    if xs == [] then []
    else
      assert xs == [xs[0]] + xs[1..];
      InsertKeepsOrder(xs[0], Ranked(xs[1..]));
      Insert(xs[0], Ranked(xs[1..]))
  }

  lemma {:induction false} InsertKeepsTies(x: Standing, ys: seq<Standing>, v: int)
    ensures Scoring(Insert(x, ys), v) == if x.score == v then [x] + Scoring(ys, v) else Scoring(ys, v)
  {
    if ys == [] || ys[0].score <= x.score {
      assert ([x] + ys)[1..] == ys;
    } else {
      var rest := Insert(x, ys[1..]);
      InsertKeepsTies(x, ys[1..], v);
      assert ([ys[0]] + rest)[1..] == rest;
    }
  }

  /** Sorting is stable: entries with equal scores keep their relative
      order, so those scoring v appear in the standings exactly as in the
      player table. */
  lemma {:induction false} RankedIsStable(xs: seq<Standing>, v: int)
    ensures Scoring(Ranked(xs), v) == Scoring(xs, v)
  {
    if xs != [] {
      RankedIsStable(xs[1..], v);
      InsertKeepsTies(xs[0], Ranked(xs[1..]), v);
    }
  }

  /** The `levelComplete` leaderboard of a player table. */
  function Leaderboard(ps: Roster): (lb: seq<Standing>)
    ensures Descending(lb)
    ensures multiset(lb) == multiset(Standings(ps))
    ensures |lb| == |ps|
  {
    var r := Ranked(Standings(ps));
    assert |r| == |multiset(r)| == |multiset(Standings(ps))| == |ps|;
    r
  }
}
