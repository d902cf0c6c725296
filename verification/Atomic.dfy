/** How whole handlers relate to interleaved statements: a request that runs with nobody in between
    is exactly the handler. */
module Atomic {
  import opened Wrappers
  import opened Crypto
  import opened Schema
  import opened Protocol
  import opened World
  import opened Runs

  // ----- a request alone -----

  /** The request runs on the current database, or will once it connects. */
  ghost predicate OnCurrent(w: World, k: nat) {
    && w.gens != [] && LiveAt(w, Current(w))
    && k in w.flights && (w.flights[k].gen.None? || w.flights[k].gen == Some(Current(w)))
  }

  /** Only this request and the current database moved. */
  ghost predicate OnlyMoved(w: World, w': World, k: nat) {
    && w.gens != [] && |w'.gens| == |w.gens| && LiveAt(w', Current(w))
    && (forall g | 0 <= g < Current(w) :: w'.gens[g] == w.gens[g])
    && k in w'.flights && w'.flights - {k} == w.flights - {k}
  }

  /** The request is done with this reply on this database. */
  ghost predicate EndsWith(w: World, w': World, k: nat, result: (Db, Reply)) {
    OnlyMoved(w, w', k) && DbAt(w', Current(w)) == result.0 && w'.flights[k].pc == Done(result.1)
  }

  lemma ConnectAlone(c: Config, w: World, k: nat)
    requires OnCurrent(w, k) && w.flights[k].gen.None?
    ensures Enabled(c, w, Connect(k))
    ensures var w' := Act(c, w, Connect(k));
            && OnlyMoved(w, w', k) && OnCurrent(w', k) && w'.gens == w.gens
            && w'.flights[k] == Flight(Some(Current(w)), w.flights[k].pc)
            && w'.issued == w.issued && w'.minted == w.minted
  {
  }

  ghost predicate MayStep(c: Config, w: World, k: nat, rnd: Inputs) {
    k in w.flights && (w.flights[k].pc.Done? || FreshInputs(c, w.issued, w.minted, rnd))
  }

  lemma ExecAlone(c: Config, w: World, k: nat, rnd: Inputs)
    requires OnCurrent(w, k) && w.flights[k].gen.Some?
    requires MayStep(c, w, k, rnd) && !w.flights[k].pc.Done?
    ensures Enabled(c, w, Exec(k, rnd))
    ensures var w' := ExecStep(c, w, k, rnd);
            && OnlyMoved(w, w', k) && OnCurrent(w', k)
            && (DbAt(w', Current(w)), w'.flights[k].pc) == Next(c, DbAt(w, Current(w)), w.flights[k].pc, rnd)
  {
  }

  lemma StillFresh(c: Config, w: World, k: nat, rnd: Inputs)
    requires OnCurrent(w, k) && w.flights[k].gen.Some?
    requires Ids(DbAt(w, Current(w))) <= w.issued && LiveTokens(DbAt(w, Current(w))) <= w.minted
    requires MayStep(c, w, k, rnd) && !w.flights[k].pc.Done?
    ensures MayStep(c, ExecStep(c, w, k, rnd), k, rnd)
  {
    if Reads(w.flights[k].pc) {
      var w' := ExecStep(c, w, k, rnd);
      assert w'.issued == w.issued && w'.minted == w.minted;
    }
  }

  lemma MovedTwice(w: World, w1: World, w2: World, k: nat, result: (Db, Reply))
    requires OnlyMoved(w, w1, k) && EndsWith(w1, w2, k, result)
    ensures EndsWith(w, w2, k, result)
  {
  }

  lemma ActFirst(c: Config, w: World, a: Action, rest: seq<Action>, k: nat, result: (Db, Reply))
    requires Enabled(c, w, a) && RunOk(c, Act(c, w, a), rest) && OnlyMoved(w, Act(c, w, a), k)
    requires EndsWith(Act(c, w, a), Run(c, Act(c, w, a), rest), k, result)
    ensures RunOk(c, w, [a] + rest) && EndsWith(w, Run(c, w, [a] + rest), k, result)
  {
    assert ([a] + rest)[1..] == rest;
    MovedTwice(w, Act(c, w, a), Run(c, Act(c, w, a), rest), k, result);
  }

  /** A request that nobody interrupts does to the database, and replies, exactly what its handler
      does as one atomic step. */
  lemma {:induction false} AloneIsHandler(c: Config, w: World, k: nat, rnd: Inputs) returns (acts: seq<Action>)
    requires ValidConfig(c) && Inv(c, w) && OnCurrent(w, k) && MayStep(c, w, k, rnd) && |rnd.private| == KEY_LEN
    ensures RunOk(c, w, acts)
    ensures EndsWith(w, Run(c, w, acts), k, Finish(c, DbAt(w, Current(w)), w.flights[k].pc, rnd))
    decreases Rank(w.flights[k].pc), if w.flights[k].gen.None? then 1 else 0
  {
    var db, pc := DbAt(w, Current(w)), w.flights[k].pc;
    acts := [];
    if !pc.Done? {
      var a := if w.flights[k].gen.None? then Connect(k) else Exec(k, rnd);
      if w.flights[k].gen.None? {
        ConnectAlone(c, w, k);
      } else {
        ExecAlone(c, w, k, rnd);
        assert GenOk(c, w.issued, w.minted, w.gens[Current(w)]);
        StillFresh(c, w, k, rnd);
        StepsEnd(c, db, pc, rnd);
        FinishStep(c, db, pc, rnd);
      }
      ActionKeepsInv(c, w, a);
      var rest := AloneIsHandler(c, Act(c, w, a), k, rnd);
      acts := [a] + rest;
      ActFirst(c, w, a, rest, k, Finish(c, db, pc, rnd));
    }
  }
}
