/** What one step can do to the approvals and the tokens of the devices. */
module Effects {
  import opened Wrappers
  import opened Crypto
  import opened Schema
  import opened Protocol

  /** The device is confirmed for the same user at the same address as before. */
  ghost predicate StaysApproved(before: map<Id, Identity>, after: map<Id, Identity>, i: Id)
    requires i in after
  {
    && i in before && before[i].confirmed
    && before[i].userId == after[i].userId
    && before[i].ip == after[i].ip
  }

  /** A device is confirmed after a step only if an admin's confirm wrote the flag in that step, or
      it was confirmed before for the very same user and address: refresh keeps an approval, linking
      and re-signing drop it in the statement that changes what was approved. */
  lemma OnlyConfirmApproves(c: Config, db: Db, pc: Pc, rnd: Inputs)
    requires Stored(db) && !pc.Done? && |rnd.private| == KEY_LEN
    ensures var after := Next(c, db, pc, rnd).0.identities;
            forall i | i in after && after[i].confirmed ::
              StaysApproved(db.identities, after, i) || pc == ConfirmWrite(i, true)
  {
    if !Reads(pc) && Write(c, db, pc, rnd).Success? {
      WriteApproves(c, db, pc, rnd);
    }
  }

  lemma WriteApproves(c: Config, db: Db, pc: Pc, rnd: Inputs)
    requires Stored(db) && !pc.Done? && !Reads(pc) && |rnd.private| == KEY_LEN
    requires Write(c, db, pc, rnd).Success?
    ensures var after := Write(c, db, pc, rnd).value.0.identities;
            forall i | i in after && after[i].confirmed ::
              StaysApproved(db.identities, after, i) || pc == ConfirmWrite(i, true)
  {
    var after := Write(c, db, pc, rnd).value.0.identities;
    forall i | i in after && after[i].confirmed
      ensures StaysApproved(db.identities, after, i) || pc == ConfirmWrite(i, true)
    {
      ApprovalCameFrom(c, db, pc, rnd, i);
    }
  }

  lemma ApprovalCameFrom(c: Config, db: Db, pc: Pc, rnd: Inputs, i: Id)
    requires !pc.Done? && !Reads(pc) && |rnd.private| == KEY_LEN && Write(c, db, pc, rnd).Success?
    requires var after := Write(c, db, pc, rnd).value.0.identities; i in after && after[i].confirmed
    ensures StaysApproved(db.identities, Write(c, db, pc, rnd).value.0.identities, i) || pc == ConfirmWrite(i, true)
  {
  }

  predicate Mints(pc: Pc) {
    pc.SignUpTx? || pc.LinkWrite? || pc.RefreshWrite?
  }

  /** A step brings at most one new token into the table, the one it drew, and only sign-up,
      sign-in and refresh bring one. */
  lemma OnlyLinkAndRefreshMint(c: Config, db: Db, pc: Pc, rnd: Inputs)
    requires !pc.Done? && |rnd.private| == KEY_LEN
    ensures LiveTokens(Next(c, db, pc, rnd).0) <= LiveTokens(db) + {c.suite.hash(rnd.token)}
    ensures !Mints(pc) ==> LiveTokens(Next(c, db, pc, rnd).0) <= LiveTokens(db)
  {
    if !Reads(pc) && Write(c, db, pc, rnd).Success? {
      WriteMints(c, db, pc, rnd);
    }
  }

  lemma WriteMints(c: Config, db: Db, pc: Pc, rnd: Inputs)
    requires !pc.Done? && !Reads(pc) && |rnd.private| == KEY_LEN
    requires Write(c, db, pc, rnd).Success?
    ensures var after := Write(c, db, pc, rnd).value.0;
            && LiveTokens(after) <= LiveTokens(db) + {c.suite.hash(rnd.token)}
            && (!Mints(pc) ==> LiveTokens(after) <= LiveTokens(db))
  {
    var after := Write(c, db, pc, rnd).value.0;
    forall t | t in LiveTokens(after)
      ensures t in LiveTokens(db) || (Mints(pc) && t == c.suite.hash(rnd.token))
    {
      var i :| i in after.identities && after.identities[i].token == Some(t);
      TokenCameFrom(c, db, pc, rnd, i);
    }
  }

  lemma TokenCameFrom(c: Config, db: Db, pc: Pc, rnd: Inputs, i: Id)
    requires !pc.Done? && !Reads(pc) && |rnd.private| == KEY_LEN
    requires Write(c, db, pc, rnd).Success?
    requires i in Write(c, db, pc, rnd).value.0.identities
    ensures var token := Write(c, db, pc, rnd).value.0.identities[i].token;
            || token.None?
            || (i in db.identities && db.identities[i].token == token)
            || (Mints(pc) && token == Some(c.suite.hash(rnd.token)))
  {
  }

  /** No device but this one holds the token. */
  ghost predicate HeldOnlyBy(db: Db, uuid: Id, token: string) {
    forall i | i in db.identities && i != uuid :: db.identities[i].token != Some(token)
  }

  /** A token never comes to another device: only what a step draws comes into the table. */
  lemma StepKeepsHolder(c: Config, db: Db, pc: Pc, rnd: Inputs, uuid: Id, token: string)
    requires !pc.Done? && |rnd.private| == KEY_LEN && c.suite.hash(rnd.token) != token
    requires HeldOnlyBy(db, uuid, token)
    ensures HeldOnlyBy(Next(c, db, pc, rnd).0, uuid, token)
  {
    if !Reads(pc) && Write(c, db, pc, rnd).Success? {
      var after := Write(c, db, pc, rnd).value.0;
      forall i | i in after.identities && i != uuid ensures after.identities[i].token != Some(token) {
        TokenCameFrom(c, db, pc, rnd, i);
      }
    }
  }
}
