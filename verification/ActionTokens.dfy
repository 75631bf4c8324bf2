/**
 One-time action tokens: password recovery, email verification and invitations, as the
 stored procedures and the tenant-invitation service move the token, user and membership
 tables. Each procedure or service call is one atomic step; an exception leaves the
 tables as they were. Row ids and token hashes are drawn fresh.
 */
module ActionTokens {
  import opened Common
  import opened Text

  type RowId = string
  type Hash = string

  datatype Purpose = InviteAcceptance | PasswordRecovery | EmailVerification

  /** A row of auth_action_tokens; the last three come from its metadata, `managed` being
      whether that names a tenant user invitation. */
  datatype Token = Token(
    tenant: string, user: Option<RowId>, email: string, purpose: Purpose, hash: Hash,
    expiresAt: int, consumedAt: Option<int>, managed: bool, role: string, displayName: string)

  datatype User = User(
    tenant: string, email: string, password: string, displayName: string, active: bool,
    verifiedAt: Option<int>, passwordChangedAt: Option<int>)

  datatype Membership = Membership(role: string, active: bool)

  datatype Mail = Mail(purpose: Purpose, recipient: string, sent: bool)

  /** A token row that a consume procedure accepted, the hash presented for it, and when. */
  datatype Honour = Honour(token: RowId, hash: Hash, purpose: Purpose, user: RowId, at: int)

  /** The tables; then, for the theorems, what was honoured, whose password was changed by
      which token, and which hashes have been drawn. */
  datatype Db = Db(
    tokens: map<RowId, Token>,
    users: map<RowId, User>,
    memberships: map<(string, RowId), Membership>,
    roles: set<(string, string)>,
    outbox: seq<Mail>,
    honoured: seq<Honour>,
    passwordChanges: seq<(RowId, RowId)>,
    drawn: set<Hash>)

  /** The request settings the procedures check, and how the server resolves a name that is
      both a table's column and a column of the procedure's result: as the table's
      (plpgsql.variable_conflict = use_column), or else by raising, which is the default. */
  datatype Context = Context(userId: string, path: string, columnsWin: bool)

  const INVITABLE_ROLES := {"admin", "teacher", "accountant", "staff", "parent", "student",
                            "storekeeper", "librarian", "member"}

  // ----- Text -----

  predicate Contains(s: string, p: string) {
    exists i {:trigger s[i..]} :: 0 <= i <= |s| && p <= s[i..]
  }

  function LocalPart(email: string): string {
    if email == "" || email[0] == '@' then "" else [email[0]] + LocalPart(email[1..])
  }

  function FirstNonEmpty(a: string, b: string, c: string): string {
    if a != "" then a else if b != "" then b else c
  }

  // ----- Row conditions -----

  predicate Unconsumed(t: Token) {
    t.consumedAt.None?
  }

  predicate Honours(t: Token, hash: Hash, purpose: Purpose, now: int) {
    t.hash == hash && t.purpose == purpose && Unconsumed(t) && t.expiresAt > now
  }

  predicate SupersededByUser(t: Token, purpose: Purpose, user: RowId) {
    t.user == Some(user) && t.purpose == purpose && Unconsumed(t)
  }

  predicate SupersededByInvite(t: Token, tenant: string, email: string) {
    t.tenant == tenant && Lower(t.email) == Lower(email) && t.purpose == InviteAcceptance && Unconsumed(t)
  }

  predicate ManagedInvitation(t: Token, tenant: string) {
    t.tenant == tenant && t.purpose == InviteAcceptance && Unconsumed(t) && t.managed
  }

  function Consumed(t: Token, now: int): Token {
    t.(consumedAt := Some(now))
  }

  // ----- Steps -----

  datatype Event =
    | CreateAction(ctx: Context, purpose: Purpose, tenant: string, user: RowId, email: string,
                   hash: Hash, expiresAt: int, id: RowId, now: int)
    | ConsumeRecovery(ctx: Context, hash: Hash, password: string, row: Option<RowId>, now: int)
    | ConsumeVerification(ctx: Context, hash: Hash, row: Option<RowId>, now: int)
    | ConsumeInvite(ctx: Context, hash: Hash, password: string, displayName: string,
                    row: Option<RowId>, account: Option<RowId>, newUser: RowId, now: int)
    | CreateInvitation(tenant: string, email: string, displayName: string, role: string, managed: bool,
                       hash: Hash, expiresAt: int, id: RowId, mailOk: bool, now: int)
    | ResendInvitation(tenant: string, id: RowId, hash: Hash, expiresAt: int, mailOk: bool)
    | RevokeInvitation(tenant: string, id: RowId, now: int)

  /** `row` is a row the SELECT of a consume procedure finds, or none if there is none. */
  ghost predicate Finds(db: Db, row: Option<RowId>, hash: Hash, purpose: Purpose, now: int) {
    if row.Some? then row.value in db.tokens && Honours(db.tokens[row.value], hash, purpose, now)
    else forall i :: i in db.tokens ==> !Honours(db.tokens[i], hash, purpose, now)
  }

  ghost predicate FindsAccount(db: Db, account: Option<RowId>, email: string) {
    if account.Some? then account.value in db.users && Lower(db.users[account.value].email) == Lower(email)
    else forall u :: u in db.users ==> Lower(db.users[u].email) != Lower(email)
  }

  /** Fresh ids and hashes, and lookups that find what is there. */
  ghost predicate Enabled(db: Db, e: Event) {
    match e
    case CreateAction(_, purpose, _, user, _, hash, _, id, _) =>
      purpose != InviteAcceptance && hash !in db.drawn && id !in db.tokens && user in db.users
    case ConsumeRecovery(_, hash, _, row, now) => Finds(db, row, hash, PasswordRecovery, now)
    case ConsumeVerification(_, hash, row, now) => Finds(db, row, hash, EmailVerification, now)
    case ConsumeInvite(_, hash, _, _, row, account, newUser, now) =>
      && Finds(db, row, hash, InviteAcceptance, now) && newUser !in db.users
      && (row.Some? ==> FindsAccount(db, account, db.tokens[row.value].email))
    case CreateInvitation(_, _, _, _, _, hash, _, id, _, _) => hash !in db.drawn && id !in db.tokens
    case ResendInvitation(_, _, hash, _, _) => hash !in db.drawn
    case RevokeInvitation(_, _, _) => true
  }

  predicate MayCreate(ctx: Context, purpose: Purpose, user: RowId) {
    if purpose == PasswordRecovery then
      ctx.userId == "anonymous" && Contains(ctx.path, "/auth/password-recovery/request")
    else
      ctx.userId != "anonymous" && ctx.userId == user && Contains(ctx.path, "/auth/email-verification/request")
  }

  predicate MayConsume(ctx: Context, purpose: Purpose) {
    ctx.userId == "anonymous"
    && Contains(ctx.path, match purpose
                          case PasswordRecovery => "/auth/password-recovery/reset"
                          case EmailVerification => "/auth/email-verification/verify"
                          case InviteAcceptance => "/auth/invitations/accept")
  }

  /** Whether the call goes through; otherwise it raises and changes nothing. */
  predicate Accepts(db: Db, e: Event) {
    match e
    case CreateAction(ctx, purpose, _, user, _, _, _, _, _) => MayCreate(ctx, purpose, user)
    case ConsumeRecovery(ctx, _, _, row, _) =>
      && MayConsume(ctx, PasswordRecovery) && row.Some? && row.value in db.tokens
      && var user := db.tokens[row.value].user;
         user.Some? && user.value in db.users && db.users[user.value].active
    case ConsumeVerification(ctx, _, row, _) =>
      && MayConsume(ctx, EmailVerification) && ctx.columnsWin && row.Some? && row.value in db.tokens
      && var t := db.tokens[row.value];
         t.user.Some? && t.user.value in db.users && db.users[t.user.value].active
         && Lower(db.users[t.user.value].email) == Lower(t.email)
    case ConsumeInvite(ctx, _, _, _, row, account, _, _) =>
      && MayConsume(ctx, InviteAcceptance) && ctx.columnsWin && row.Some? && row.value in db.tokens
      && var t := db.tokens[row.value];
         t.tenant != "" && (t.tenant, InvitedRole(t)) in db.roles && (account.Some? ==> account.value in db.users)
    case CreateInvitation(_, _, displayName, role, managed, _, _, _, mailOk, _) =>
      displayName != "" && (managed ==> role in INVITABLE_ROLES) && mailOk
    case ResendInvitation(tenant, id, _, _, mailOk) =>
      id in db.tokens && ManagedInvitation(db.tokens[id], tenant) && InvitedRole(db.tokens[id]) in INVITABLE_ROLES
      && mailOk
    case RevokeInvitation(tenant, id, _) => id in db.tokens && ManagedInvitation(db.tokens[id], tenant)
  }

  function InvitedRole(t: Token): string {
    if t.role == "" then "member" else t.role
  }

  function SupersedeUser(tokens: map<RowId, Token>, purpose: Purpose, user: RowId, now: int): map<RowId, Token> {
    map i | i in tokens :: if SupersededByUser(tokens[i], purpose, user) then Consumed(tokens[i], now) else tokens[i]
  }

  function SupersedeInvites(tokens: map<RowId, Token>, tenant: string, email: string, now: int): map<RowId, Token> {
    map i | i in tokens :: if SupersededByInvite(tokens[i], tenant, email) then Consumed(tokens[i], now) else tokens[i]
  }

  function InvitedUser(was: Option<User>, t: Token, password: string, displayName: string, now: int): User {
    if was.None? then
      User(t.tenant, Lower(t.email), password, displayName, true, Some(now), Some(now))
    else
      was.value.(password := password, displayName := displayName, active := true,
                 verifiedAt := if was.value.verifiedAt.Some? then was.value.verifiedAt else Some(now),
                 passwordChangedAt := Some(now))
  }

  /** The tables after a call that goes through. */
  function Apply(db: Db, e: Event): Db
    requires Accepts(db, e)
  {
    match e
    case CreateAction(_, purpose, tenant, user, email, hash, expiresAt, id, now) =>
      db.(tokens := SupersedeUser(db.tokens, purpose, user, now)
            [id := Token(tenant, Some(user), Lower(email), purpose, hash, expiresAt, None, false, "", "")],
          outbox := db.outbox + [Mail(purpose, Lower(email), false)],
          drawn := db.drawn + {hash})
    case ConsumeRecovery(_, hash, password, row, now) =>
      var t := db.tokens[row.value];
      db.(users := db.users[t.user.value :=
            db.users[t.user.value].(password := password, passwordChangedAt := Some(now))],
          tokens := db.tokens[row.value := Consumed(t, now)],
          honoured := db.honoured + [Honour(row.value, hash, PasswordRecovery, t.user.value, now)],
          passwordChanges := db.passwordChanges + [(row.value, t.user.value)])
    case ConsumeVerification(_, hash, row, now) =>
      var t := db.tokens[row.value];
      var u := db.users[t.user.value];
      db.(users := db.users[t.user.value := u.(verifiedAt := if u.verifiedAt.Some? then u.verifiedAt else Some(now))],
          tokens := db.tokens[row.value := Consumed(t, now)],
          honoured := db.honoured + [Honour(row.value, hash, EmailVerification, t.user.value, now)])
    case ConsumeInvite(_, hash, password, displayName, row, account, newUser, now) =>
      var t := db.tokens[row.value];
      var user := if account.Some? then account.value else newUser;
      var name := FirstNonEmpty(displayName, t.displayName, LocalPart(t.email));
      var was := if account.Some? then Some(db.users[account.value]) else None;
      db.(users := db.users[user := InvitedUser(was, t, password, name, now)],
          memberships := db.memberships[(t.tenant, user) := Membership(InvitedRole(t), true)],
          tokens := db.tokens[row.value := Consumed(t, now).(user := Some(user))],
          honoured := db.honoured + [Honour(row.value, hash, InviteAcceptance, user, now)],
          passwordChanges := db.passwordChanges + [(row.value, user)])
    case CreateInvitation(tenant, email, displayName, role, managed, hash, expiresAt, id, _, now) =>
      db.(tokens := SupersedeInvites(db.tokens, tenant, email, now)
            [id := Token(tenant, None, email, InviteAcceptance, hash, expiresAt, None, managed, role, displayName)],
          outbox := db.outbox + [Mail(InviteAcceptance, email, true)],
          drawn := db.drawn + {hash})
    case ResendInvitation(_, id, hash, expiresAt, _) =>
      var t := db.tokens[id];
      db.(tokens := db.tokens[id := t.(hash := hash, expiresAt := expiresAt, role := InvitedRole(t),
                                       displayName := FirstNonEmpty(t.displayName, t.email, ""))],
          outbox := db.outbox + [Mail(InviteAcceptance, Lower(t.email), true)],
          drawn := db.drawn + {hash})
    case RevokeInvitation(_, id, now) =>
      db.(tokens := db.tokens[id := Consumed(db.tokens[id], now)])
  }

  function Next(db: Db, e: Event): Db {
    if Accepts(db, e) then Apply(db, e) else db
  }

  // ----- The store, moved in place -----

  class ActionTokenStore {
    var tokens: map<RowId, Token>
    var users: map<RowId, User>
    var memberships: map<(string, RowId), Membership>
    var roles: set<(string, string)>
    var outbox: seq<Mail>
    ghost var honoured: seq<Honour>
    ghost var passwordChanges: seq<(RowId, RowId)>
    ghost var drawn: set<Hash>

    ghost function Value(): Db
      reads this
    {
      Db(tokens, users, memberships, roles, outbox, honoured, passwordChanges, drawn)
    }

    /** UPDATE of the user's pending tokens of this purpose. */
    method ConsumePending(purpose: Purpose, user: RowId, now: int)
      modifies `tokens
      ensures tokens == SupersedeUser(old(tokens), purpose, user, now)
    {
      tokens := map i | i in tokens ::
        if tokens[i].user == Some(user) && tokens[i].purpose == purpose && tokens[i].consumedAt.None?
        then tokens[i].(consumedAt := Some(now)) else tokens[i];
    }

    /** UPDATE of the pending invitations of the tenant and address. */
    method ConsumeInvitations(tenant: string, email: string, now: int)
      modifies `tokens
      ensures tokens == SupersedeInvites(old(tokens), tenant, email, now)
    {
      tokens := map i | i in tokens ::
        if SupersededByInvite(tokens[i], tenant, email) then tokens[i].(consumedAt := Some(now)) else tokens[i];
    }

    /** create_password_recovery_action and create_email_verification_action. */
    method CreateAction(ctx: Context, purpose: Purpose, tenant: string, user: RowId, email: string,
                        hash: Hash, expiresAt: int, id: RowId, now: int) returns (ok: bool)
      requires Enabled(Value(), Event.CreateAction(ctx, purpose, tenant, user, email, hash, expiresAt, id, now))
      modifies this
      ensures var e := Event.CreateAction(ctx, purpose, tenant, user, email, hash, expiresAt, id, now);
              ok == Accepts(old(Value()), e) && Value() == Next(old(Value()), e)
    {
      if purpose == PasswordRecovery {
        if ctx.userId != "anonymous" { return false; }
        if !Contains(ctx.path, "/auth/password-recovery/request") { return false; }
      } else {
        if ctx.userId == "anonymous" || ctx.userId != user { return false; }
        if !Contains(ctx.path, "/auth/email-verification/request") { return false; }
      }
      ConsumePending(purpose, user, now);
      tokens := tokens[id := Token(tenant, Some(user), Lower(email), purpose, hash, expiresAt, None, false, "", "")];
      outbox := outbox + [Mail(purpose, Lower(email), false)];
      drawn := drawn + {hash};
      return true;
    }

    method ConsumeRecovery(ctx: Context, hash: Hash, password: string, now: int)
      returns (ok: bool, row: Option<RowId>)
      modifies this
      ensures var e := Event.ConsumeRecovery(ctx, hash, password, row, now);
              && (MayConsume(ctx, PasswordRecovery) ==> Enabled(old(Value()), e))
              && ok == Accepts(old(Value()), e) && Value() == Next(old(Value()), e)
    {
      row := None;
      if ctx.userId != "anonymous" { return false, None; }
      if !Contains(ctx.path, "/auth/password-recovery/reset") { return false, None; }
      if found :| found in tokens && Honours(tokens[found], hash, PasswordRecovery, now) {
        row := Some(found);
        var user := tokens[found].user;
        if user.None? || user.value !in users || !users[user.value].active { return false, row; }
        users := users[user.value := users[user.value].(password := password, passwordChangedAt := Some(now))];
        tokens := tokens[found := tokens[found].(consumedAt := Some(now))];
        honoured := honoured + [Honour(found, hash, PasswordRecovery, user.value, now)];
        passwordChanges := passwordChanges + [(found, user.value)];
        return true, row;
      }
      return false, None;
    }

    method ConsumeVerification(ctx: Context, hash: Hash, now: int) returns (ok: bool, row: Option<RowId>)
      modifies this
      ensures var e := Event.ConsumeVerification(ctx, hash, row, now);
              && (MayConsume(ctx, EmailVerification) ==> Enabled(old(Value()), e))
              && ok == Accepts(old(Value()), e) && Value() == Next(old(Value()), e)
    {
      row := None;
      if ctx.userId != "anonymous" { return false, None; }
      if !Contains(ctx.path, "/auth/email-verification/verify") { return false, None; }
      if found :| found in tokens && Honours(tokens[found], hash, EmailVerification, now) {
        row := Some(found);
        var t := tokens[found];
        // UPDATE users names its column email bare.
        if !ctx.columnsWin { return false, row; }
        if t.user.None? || t.user.value !in users { return false, row; }
        var u := users[t.user.value];
        if Lower(u.email) != Lower(t.email) || !u.active { return false, row; }
        if u.verifiedAt.None? {
          users := users[t.user.value := u.(verifiedAt := Some(now))];
        }
        tokens := tokens[found := t.(consumedAt := Some(now))];
        honoured := honoured + [Honour(found, hash, EmailVerification, t.user.value, now)];
        assert users == old(users)[t.user.value := users[t.user.value]];
        return true, row;
      }
      return false, None;
    }

    /** The user with the invited address, updated, or a new one. */
    method AdmitInvited(t: Token, password: string, name: string, newUser: RowId, now: int)
      returns (account: Option<RowId>)
      requires newUser !in users
      modifies `users
      ensures if account.Some?
              then account.value in old(users) && Lower(old(users)[account.value].email) == Lower(t.email)
                   && users == old(users)[account.value :=
                        InvitedUser(Some(old(users)[account.value]), t, password, name, now)]
              else (forall u :: u in old(users) ==> Lower(old(users)[u].email) != Lower(t.email))
                   && users == old(users)[newUser := InvitedUser(None, t, password, name, now)]
    {
      if existing :| existing in users && Lower(users[existing].email) == Lower(t.email) {
        var u := users[existing];
        users := users[existing := u.(password := password, displayName := name, active := true,
                                      verifiedAt := if u.verifiedAt.Some? then u.verifiedAt else Some(now),
                                      passwordChangedAt := Some(now))];
        return Some(existing);
      }
      users := users[newUser := User(t.tenant, Lower(t.email), password, name, true, Some(now), Some(now))];
      return None;
    }

    method ConsumeInvite(ctx: Context, hash: Hash, password: string, displayName: string, newUser: RowId, now: int)
      returns (ok: bool, row: Option<RowId>, account: Option<RowId>)
      requires newUser !in users
      modifies this
      ensures var e := Event.ConsumeInvite(ctx, hash, password, displayName, row, account, newUser, now);
              && (ok ==> Enabled(old(Value()), e))
              && ok == Accepts(old(Value()), e) && Value() == Next(old(Value()), e)
    {
      row, account := None, None;
      if ctx.userId != "anonymous" { return false, None, None; }
      if !Contains(ctx.path, "/auth/invitations/accept") { return false, None, None; }
      if found :| found in tokens && Honours(tokens[found], hash, InviteAcceptance, now) {
        row := Some(found);
        var t := tokens[found];
        if t.tenant == "" { return false, row, None; }
        var role := if t.role == "" then "member" else t.role;
        var name := FirstNonEmpty(displayName, t.displayName, LocalPart(t.email));
        if (t.tenant, role) !in roles { return false, row, None; }
        // ON CONFLICT names tenant_id and user_id bare; raising there undoes the whole call.
        if !ctx.columnsWin { return false, row, None; }
        account := AdmitInvited(t, password, name, newUser, now);
        var user := if account.Some? then account.value else newUser;
        memberships := memberships[(t.tenant, user) := Membership(role, true)];
        tokens := tokens[found := t.(consumedAt := Some(now), user := Some(user))];
        honoured := honoured + [Honour(found, hash, InviteAcceptance, user, now)];
        passwordChanges := passwordChanges + [(found, user)];
        return true, row, account;
      }
      return false, None, None;
    }

    /** createInvitationAction in its transaction: a mail failure rolls everything back. */
    method CreateInvitation(tenant: string, email: string, displayName: string, role: string, managed: bool,
                            hash: Hash, expiresAt: int, id: RowId, mailOk: bool, now: int) returns (ok: bool)
      requires hash !in drawn && id !in tokens
      modifies this
      ensures var e := Event.CreateInvitation(tenant, email, displayName, role, managed, hash, expiresAt, id,
                                              mailOk, now);
              ok == Accepts(old(Value()), e) && Value() == Next(old(Value()), e)
    {
      if managed && role !in INVITABLE_ROLES { return false; }
      if displayName == "" { return false; }
      var savedTokens, savedOutbox := tokens, outbox;
      ConsumeInvitations(tenant, email, now);
      tokens := tokens[id := Token(tenant, None, email, InviteAcceptance, hash, expiresAt, None, managed, role,
                                   displayName)];
      if !mailOk {
        tokens, outbox := savedTokens, savedOutbox;
        return false;
      }
      outbox := outbox + [Mail(InviteAcceptance, email, true)];
      drawn := drawn + {hash};
      return true;
    }

    method ResendInvitation(tenant: string, id: RowId, hash: Hash, expiresAt: int, mailOk: bool) returns (ok: bool)
      requires hash !in drawn
      modifies this
      ensures var e := Event.ResendInvitation(tenant, id, hash, expiresAt, mailOk);
              ok == Accepts(old(Value()), e) && Value() == Next(old(Value()), e)
    {
      if id !in tokens || !ManagedInvitation(tokens[id], tenant) { return false; }
      var t := tokens[id];
      var role := if t.role == "" then "member" else t.role;
      if role !in INVITABLE_ROLES { return false; }
      var saved := tokens;
      tokens := tokens[id := t.(hash := hash, expiresAt := expiresAt, role := role,
                                displayName := if t.displayName != "" then t.displayName else t.email)];
      if !mailOk {
        tokens := saved;
        return false;
      }
      outbox := outbox + [Mail(InviteAcceptance, Lower(t.email), true)];
      drawn := drawn + {hash};
      return true;
    }

    method RevokeInvitation(tenant: string, id: RowId, now: int) returns (ok: bool)
      modifies this
      ensures var e := Event.RevokeInvitation(tenant, id, now);
              ok == Accepts(old(Value()), e) && Value() == Next(old(Value()), e)
    {
      if id !in tokens || !ManagedInvitation(tokens[id], tenant) { return false; }
      tokens := tokens[id := tokens[id].(consumedAt := Some(now))];
      return true;
    }
  }

  // ----- The invariant -----

  /** Two pending tokens for the same thing: the same user for recovery and verification,
      the same tenant and address for an invitation. */
  predicate Clash(t: Token, u: Token) {
    Unconsumed(t) && Unconsumed(u) && t.purpose == u.purpose
    && if t.purpose == InviteAcceptance then t.tenant == u.tenant && Lower(t.email) == Lower(u.email)
       else t.user == u.user
  }

  ghost predicate RowsInv(db: Db) {
    && (forall i :: i in db.tokens ==> db.tokens[i].hash in db.drawn)
    && (forall i, j :: i in db.tokens && j in db.tokens && i != j ==>
          !Clash(db.tokens[i], db.tokens[j]) && db.tokens[i].hash != db.tokens[j].hash)
  }

  predicate HonourStands(db: Db, h: Honour) {
    h.token in db.tokens && db.tokens[h.token].consumedAt == Some(h.at) && db.tokens[h.token].hash == h.hash
    && db.tokens[h.token].purpose == h.purpose && db.tokens[h.token].user == Some(h.user)
    && h.at < db.tokens[h.token].expiresAt
  }

  ghost predicate HonoursInv(db: Db) {
    && (forall k :: 0 <= k < |db.honoured| ==> HonourStands(db, db.honoured[k]))
    && (forall k, l :: 0 <= k < l < |db.honoured| ==> db.honoured[k].token != db.honoured[l].token)
  }

  /** The recoveries and invitations among what was honoured. */
  function ChangesOf(hs: seq<Honour>): seq<(RowId, RowId)> {
    if hs == [] then []
    else
      var last := hs[|hs| - 1];
      ChangesOf(hs[..|hs| - 1]) + if last.purpose == EmailVerification then [] else [(last.token, last.user)]
  }

  ghost predicate Inv(db: Db) {
    RowsInv(db) && HonoursInv(db) && db.passwordChanges == ChangesOf(db.honoured)
  }

  // ----- One step -----

  /** What a step may do to a row: nothing once it is consumed; before that, consume it or
      give it a fresh hash. */
  predicate RowMoves(db: Db, t: Token, t': Token) {
    && t'.tenant == t.tenant && t'.email == t.email && t'.purpose == t.purpose
    && (!Unconsumed(t) ==> t' == t)
    && (Unconsumed(t') ==> t'.user == t.user)
    && (t'.hash == t.hash || (t'.hash !in db.drawn && Unconsumed(t')))
  }

  /** The row a step inserts. */
  function Inserted(e: Event): Option<RowId> {
    match e
    case CreateAction(_, _, _, _, _, _, _, id, _) => Some(id)
    case CreateInvitation(_, _, _, _, _, _, _, id, _, _) => Some(id)
    case _ => None
  }

  lemma StepMovesRows(db: Db, e: Event)
    requires Enabled(db, e)
    ensures forall i :: i in db.tokens ==> i in Next(db, e).tokens && RowMoves(db, db.tokens[i], Next(db, e).tokens[i])
    ensures forall i :: i in Next(db, e).tokens ==> i in db.tokens || Inserted(e) == Some(i)
    ensures db.drawn <= Next(db, e).drawn
  {
  }

  /** The row a step gives the hash it drew. */
  function Rehashed(e: Event): Option<RowId> {
    if e.ResendInvitation? then Some(e.id) else Inserted(e)
  }

  lemma HashStaysOrResent(db: Db, e: Event, i: RowId)
    requires Enabled(db, e) && i in db.tokens
    ensures i in Next(db, e).tokens && Next(db, e).tokens[i].hash ==
            if e.ResendInvitation? && e.id == i && Accepts(db, e) then e.hash else db.tokens[i].hash
  {
  }

  lemma HashDrawn(db: Db, e: Event, i: RowId)
    requires Enabled(db, e) && i in Next(db, e).tokens && i !in db.tokens
    ensures Inserted(e) == Some(i) && Next(db, e).tokens[i].hash in Next(db, e).drawn - db.drawn
  {
  }

  lemma ResentHashDrawn(db: Db, e: Event)
    requires Enabled(db, e) && e.ResendInvitation? && Accepts(db, e)
    ensures e.hash in Next(db, e).drawn - db.drawn
  {
  }

  lemma StepRehashes(db: Db, e: Event, i: RowId)
    requires Enabled(db, e) && RowsInv(db) && i in Next(db, e).tokens
    ensures Next(db, e).tokens[i].hash in Next(db, e).drawn
    ensures Next(db, e).tokens[i].hash !in db.drawn ==> Rehashed(e) == Some(i)
    ensures Next(db, e).tokens[i].hash in db.drawn ==>
              i in db.tokens && db.tokens[i].hash == Next(db, e).tokens[i].hash
  {
    StepMovesRows(db, e);
    if i !in db.tokens {
      HashDrawn(db, e, i);
    } else {
      HashStaysOrResent(db, e, i);
      if e.ResendInvitation? && Accepts(db, e) {
        ResentHashDrawn(db, e);
      }
    }
  }

  lemma StepHashes(db: Db, e: Event)
    requires Enabled(db, e) && RowsInv(db)
    ensures forall i :: i in Next(db, e).tokens ==> Next(db, e).tokens[i].hash in Next(db, e).drawn
    ensures forall i, j :: i in Next(db, e).tokens && j in Next(db, e).tokens && i != j ==>
              Next(db, e).tokens[i].hash != Next(db, e).tokens[j].hash
  {
    var rows := Next(db, e).tokens;
    forall i | i in rows ensures rows[i].hash in Next(db, e).drawn {
      StepRehashes(db, e, i);
    }
    forall i, j | i in rows && j in rows && i != j ensures rows[i].hash != rows[j].hash {
      StepRehashes(db, e, i);
      StepRehashes(db, e, j);
    }
  }

  /** What is inserted clashes with nothing, because the step superseded its rivals. */
  lemma InsertedIsAlone(db: Db, e: Event, i: RowId)
    requires Enabled(db, e) && Accepts(db, e) && Inserted(e).Some?
    requires i in Next(db, e).tokens && i != Inserted(e).value
    ensures !Clash(Next(db, e).tokens[i], Next(db, e).tokens[Inserted(e).value])
    ensures !Clash(Next(db, e).tokens[Inserted(e).value], Next(db, e).tokens[i])
  {
    if e.CreateInvitation? {
      assert Next(db, e).tokens[i] == SupersedeInvites(db.tokens, e.tenant, e.email, e.now)[i];
    } else {
      assert Next(db, e).tokens[i] == SupersedeUser(db.tokens, e.purpose, e.user, e.now)[i];
    }
  }

  lemma OldRowsDontClash(db: Db, e: Event, i: RowId, j: RowId)
    requires Enabled(db, e) && RowsInv(db) && i in db.tokens && j in db.tokens && i != j
    ensures i in Next(db, e).tokens && j in Next(db, e).tokens && !Clash(Next(db, e).tokens[i], Next(db, e).tokens[j])
  {
    var db' := Next(db, e);
    StepMovesRows(db, e);
    assert !Clash(db.tokens[i], db.tokens[j]);
    assert RowMoves(db, db.tokens[i], db'.tokens[i]) && RowMoves(db, db.tokens[j], db'.tokens[j]);
  }

  lemma RowsDontClash(db: Db, e: Event, i: RowId, j: RowId)
    requires Enabled(db, e) && RowsInv(db) && i in Next(db, e).tokens && j in Next(db, e).tokens && i != j
    ensures !Clash(Next(db, e).tokens[i], Next(db, e).tokens[j])
  {
    StepMovesRows(db, e);
    if i in db.tokens && j in db.tokens {
      OldRowsDontClash(db, e, i, j);
    } else {
      InsertedIsAlone(db, e, if i in db.tokens then i else j);
    }
  }

  lemma StepRows(db: Db, e: Event)
    requires Enabled(db, e) && RowsInv(db)
    ensures RowsInv(Next(db, e))
  {
    var rows := Next(db, e).tokens;
    StepHashes(db, e);
    forall i, j | i in rows && j in rows && i != j ensures !Clash(rows[i], rows[j]) {
      RowsDontClash(db, e, i, j);
    }
  }

  /** A step honours nothing, or one pending token by the hash it has. */
  lemma StepHonoursAtMostOne(db: Db, e: Event)
    requires Enabled(db, e)
    ensures Next(db, e).honoured == db.honoured
            || exists h :: Next(db, e).honoured == db.honoured + [h] && h.token in db.tokens
                           && Unconsumed(db.tokens[h.token]) && db.tokens[h.token].hash == h.hash
    ensures db.passwordChanges == ChangesOf(db.honoured)
            ==> Next(db, e).passwordChanges == ChangesOf(Next(db, e).honoured)
  {
    var db' := Next(db, e);
    if db'.honoured != db.honoured {
      var h := db'.honoured[|db.honoured|];
      assert db'.honoured == db.honoured + [h];
      assert db'.honoured[..|db'.honoured| - 1] == db.honoured;
    }
  }

  lemma NewHonourStands(db: Db, e: Event)
    requires Enabled(db, e) && RowsInv(db) && Next(db, e).honoured != db.honoured
    ensures |Next(db, e).honoured| == |db.honoured| + 1
    ensures HonourStands(Next(db, e), Next(db, e).honoured[|db.honoured|])
  {
  }

  /** What was honoured stands as long as consumed rows do. */
  lemma HonoursCarryOver(db: Db, after: Db)
    requires HonoursInv(db)
    requires forall i :: i in db.tokens ==> i in after.tokens && RowMoves(db, db.tokens[i], after.tokens[i])
    requires
      || after.honoured == db.honoured
      || exists h :: after.honoured == db.honoured + [h] && HonourStands(after, h)
                     && h.token in db.tokens && Unconsumed(db.tokens[h.token])
    ensures HonoursInv(after)
  {
    forall k | 0 <= k < |db.honoured| ensures HonourStands(after, db.honoured[k]) {
      assert HonourStands(db, db.honoured[k]);
      assert RowMoves(db, db.tokens[db.honoured[k].token], after.tokens[db.honoured[k].token]);
    }
  }

  lemma StepHonours(db: Db, e: Event)
    requires Enabled(db, e) && RowsInv(db) && HonoursInv(db)
    ensures HonoursInv(Next(db, e))
  {
    var after := Next(db, e);
    StepMovesRows(db, e);
    StepHonoursAtMostOne(db, e);
    if after.honoured != db.honoured {
      NewHonourStands(db, e);
      assert after.honoured == db.honoured + [after.honoured[|db.honoured|]];
    }
    HonoursCarryOver(db, after);
  }

  lemma StepKeepsInv(db: Db, e: Event)
    requires Inv(db) && Enabled(db, e)
    ensures Inv(Next(db, e))
  {
    StepRows(db, e);
    StepHonours(db, e);
    StepHonoursAtMostOne(db, e);
  }

  // ----- Runs -----

  ghost predicate Allowed(db: Db, es: seq<Event>)
    decreases |es|
  {
    es == [] || (Enabled(db, es[0]) && Allowed(Next(db, es[0]), es[1..]))
  }

  function Run(db: Db, es: seq<Event>): Db
    decreases |es|
  {
    if es == [] then db else Run(Next(db, es[0]), es[1..])
  }

  /** Any users, memberships and roles, and no token yet. */
  predicate Initial(db: Db) {
    db.tokens == map[] && db.honoured == [] && db.passwordChanges == [] && db.drawn == {}
  }

  lemma {:induction false} RunKeepsInv(db: Db, es: seq<Event>)
    requires Inv(db) && Allowed(db, es)
    ensures Inv(Run(db, es))
    decreases |es|
  {
    if es != [] {
      StepKeepsInv(db, es[0]);
      RunKeepsInv(Next(db, es[0]), es[1..]);
    }
  }

  /** In every run at most one recovery and one verification token is pending for a user,
      and at most one invitation for a tenant and address. */
  lemma OnePendingToken(db: Db, es: seq<Event>, i: RowId, j: RowId)
    requires Initial(db) && Allowed(db, es)
    requires var d := Run(db, es); i in d.tokens && j in d.tokens && Clash(d.tokens[i], d.tokens[j])
    ensures i == j
  {
    RunKeepsInv(db, es);
  }

  /** consumed_at is written once: a consumed row never changes again in any way. */
  lemma {:induction false} ConsumedRowsStand(db: Db, es: seq<Event>, i: RowId)
    requires Allowed(db, es) && i in db.tokens && !Unconsumed(db.tokens[i])
    ensures i in Run(db, es).tokens && Run(db, es).tokens[i] == db.tokens[i]
    decreases |es|
  {
    if es != [] {
      StepMovesRows(db, es[0]);
      assert RowMoves(db, db.tokens[i], Next(db, es[0]).tokens[i]);
      ConsumedRowsStand(Next(db, es[0]), es[1..], i);
    }
  }

  /** No pending token has the hash any more: it was consumed, superseded, revoked or
      replaced by a resend. */
  predicate Retired(db: Db, hash: Hash) {
    hash in db.drawn && forall i :: i in db.tokens && Unconsumed(db.tokens[i]) ==> db.tokens[i].hash != hash
  }

  predicate HonouredIn(hs: seq<Honour>, hash: Hash) {
    exists k :: 0 <= k < |hs| && hs[k].hash == hash
  }

  lemma StepKeepsRetired(db: Db, e: Event, hash: Hash)
    requires Inv(db) && Enabled(db, e) && Retired(db, hash)
    ensures Retired(Next(db, e), hash) && db.honoured <= Next(db, e).honoured
    ensures !HonouredIn(Next(db, e).honoured[|db.honoured|..], hash)
  {
    var next := Next(db, e);
    StepMovesRows(db, e);
    StepHonoursAtMostOne(db, e);
    forall i | i in next.tokens && Unconsumed(next.tokens[i]) ensures next.tokens[i].hash != hash {
      StepRehashes(db, e, i);
    }
  }

  lemma HonouredInParts(first: seq<Honour>, second: seq<Honour>, third: seq<Honour>, hash: Hash)
    requires first <= second <= third
    requires !HonouredIn(second[|first|..], hash) && !HonouredIn(third[|second|..], hash)
    ensures !HonouredIn(third[|first|..], hash)
  {
    assert third[|first|..] == second[|first|..] + third[|second|..];
  }

  /** A procedure whose statements name a column that is also a result column. */
  predicate NamesAmbiguously(e: Event) {
    e.ConsumeVerification? || e.ConsumeInvite?
  }

  /** The same accounts, verified or not as before. */
  ghost predicate SameAccounts(users: map<RowId, User>, after: map<RowId, User>) {
    after.Keys == users.Keys && forall u :: u in users ==> after[u].verifiedAt == users[u].verifiedAt
  }

  /** Passwords may have been recovered since; nothing else was honoured. */
  ghost predicate OnlyRecovered(db: Db, after: Db) {
    && db.honoured <= after.honoured && SameAccounts(db.users, after.users)
    && forall k :: |db.honoured| <= k < |after.honoured| ==> after.honoured[k].purpose == PasswordRecovery
  }

  lemma StepByDefault(db: Db, e: Event)
    requires Enabled(db, e) && (NamesAmbiguously(e) ==> !e.ctx.columnsWin)
    ensures OnlyRecovered(db, Next(db, e))
  {
  }

  lemma OnlyRecoveredTwice(db: Db, next: Db, after: Db)
    requires OnlyRecovered(db, next) && OnlyRecovered(next, after)
    ensures OnlyRecovered(db, after)
  {
    assert forall k :: |db.honoured| <= k < |next.honoured| ==> after.honoured[k] == next.honoured[k];
  }

  /** At the server's default the verification and invitation procedures always raise: no run
      verifies an address, admits a user, or honours anything but a recovery token. */
  lemma {:induction false} OnlyRecoveriesByDefault(db: Db, es: seq<Event>)
    requires Allowed(db, es)
    requires forall i :: 0 <= i < |es| && NamesAmbiguously(es[i]) ==> !es[i].ctx.columnsWin
    ensures OnlyRecovered(db, Run(db, es))
    decreases |es|
  {
    if es != [] {
      StepByDefault(db, es[0]);
      OnlyRecoveriesByDefault(Next(db, es[0]), es[1..]);
      OnlyRecoveredTwice(db, Next(db, es[0]), Run(Next(db, es[0]), es[1..]));
    }
  }

  /** A retired hash is never honoured again, whatever runs. */
  lemma {:induction false} RetiredHashIsNeverHonoured(db: Db, es: seq<Event>, hash: Hash)
    requires Inv(db) && Allowed(db, es) && Retired(db, hash)
    ensures Retired(Run(db, es), hash)
    ensures db.honoured <= Run(db, es).honoured
    ensures !HonouredIn(Run(db, es).honoured[|db.honoured|..], hash)
    decreases |es|
  {
    if es != [] {
      var next := Next(db, es[0]);
      StepKeepsInv(db, es[0]);
      StepKeepsRetired(db, es[0], hash);
      RetiredHashIsNeverHonoured(next, es[1..], hash);
      HonouredInParts(db.honoured, next.honoured, Run(next, es[1..]).honoured, hash);
    }
  }

  /** Superseding, resending, revoking and honouring all retire the hash in question. */
  lemma ReplacingRetiresHash(db: Db, e: Event, i: RowId)
    requires Inv(db) && Enabled(db, e) && i in db.tokens
    requires var t' := Next(db, e).tokens; i in t' && (!Unconsumed(t'[i]) || t'[i].hash != db.tokens[i].hash)
    ensures Retired(Next(db, e), db.tokens[i].hash)
  {
    var next, hash := Next(db, e), db.tokens[i].hash;
    StepKeepsInv(db, e);
    StepMovesRows(db, e);
    forall j | j in next.tokens && Unconsumed(next.tokens[j]) ensures next.tokens[j].hash != hash {
      if j in db.tokens && j != i {
        assert RowMoves(db, db.tokens[j], next.tokens[j]);
        assert db.tokens[j].hash != hash;
      }
    }
  }

  /** Each hash is honoured at most once, and each token too. */
  lemma HonouredOnce(db: Db, es: seq<Event>, k: nat, l: nat)
    requires Initial(db) && Allowed(db, es)
    requires var hs := Run(db, es).honoured;
             k < |hs| && l < |hs| && (hs[k].hash == hs[l].hash || hs[k].token == hs[l].token)
    ensures k == l
  {
    RunKeepsInv(db, es);
    var d := Run(db, es);
    assert HonourStands(d, d.honoured[k]) && HonourStands(d, d.honoured[l]);
  }

  lemma {:induction false} ChangeIsHonoured(hs: seq<Honour>, c: nat) returns (k: nat)
    requires c < |ChangesOf(hs)|
    ensures k < |hs| && hs[k].token == ChangesOf(hs)[c].0 && hs[k].user == ChangesOf(hs)[c].1
    ensures hs[k].purpose != EmailVerification
    ensures c < k + 1 && |ChangesOf(hs[..k])| == c
    decreases |hs|
  {
    var front := hs[..|hs| - 1];
    if c < |ChangesOf(front)| {
      k := ChangeIsHonoured(front, c);
      assert front[..k] == hs[..k];
      ChangesFit(front);
    } else {
      k := |hs| - 1;
      ChangesFit(front);
    }
  }

  lemma {:induction false} ChangesFit(hs: seq<Honour>)
    ensures |ChangesOf(hs)| <= |hs|
    decreases |hs|
  {
    if hs != [] {
      ChangesFit(hs[..|hs| - 1]);
    }
  }

  lemma ChangesMatchTokens(r: Db, c: nat, d: nat)
    requires HonoursInv(r) && r.passwordChanges == ChangesOf(r.honoured)
    requires c < |r.passwordChanges| && d < |r.passwordChanges|
    ensures var (token, user) := r.passwordChanges[c];
            && token in r.tokens && !Unconsumed(r.tokens[token]) && r.tokens[token].user == Some(user)
            && r.tokens[token].purpose != EmailVerification
            && (c != d ==> r.passwordChanges[d].0 != token)
  {
    var k := ChangeIsHonoured(r.honoured, c);
    var l := ChangeIsHonoured(r.honoured, d);
    assert HonourStands(r, r.honoured[k]) && HonourStands(r, r.honoured[l]);
  }

  /** Every password change was made by one consumed recovery or invitation token of that
      user, and no token made two. */
  lemma PasswordChangesMatchTokens(db: Db, es: seq<Event>, c: nat, d: nat)
    requires Initial(db) && Allowed(db, es)
    requires c < |Run(db, es).passwordChanges| && d < |Run(db, es).passwordChanges|
    ensures var r := Run(db, es);
            var (token, user) := r.passwordChanges[c];
            && token in r.tokens && !Unconsumed(r.tokens[token]) && r.tokens[token].user == Some(user)
            && r.tokens[token].purpose != EmailVerification
            && (c != d ==> r.passwordChanges[d].0 != token)
  {
    RunKeepsInv(db, es);
    ChangesMatchTokens(Run(db, es), c, d);
  }

  /** And nothing else moves a password: a step that leaves the record of changes alone
      leaves every stored password alone, and one that adds to it touches that user only. */
  lemma StepChangesPasswordsOnRecord(db: Db, e: Event, user: RowId)
    requires Enabled(db, e) && user in db.users
    ensures user in Next(db, e).users
    ensures Next(db, e).users[user].password != db.users[user].password ==>
              exists token :: Next(db, e).passwordChanges == db.passwordChanges + [(token, user)]
                              && token in db.tokens && Unconsumed(db.tokens[token])
  {
    if Next(db, e).users[user].password != db.users[user].password {
      assert Next(db, e).passwordChanges == db.passwordChanges + [(e.row.value, user)];
    }
  }

  /** Over every run, whatever was honoured was honoured before the token expired, and its row
      still says when. */
  lemma HonouredInTime(db: Db, es: seq<Event>, k: nat)
    requires Initial(db) && Allowed(db, es) && k < |Run(db, es).honoured|
    ensures var r := Run(db, es); var h := r.honoured[k];
            h.token in r.tokens && r.tokens[h.token].consumedAt == Some(h.at) && h.at < r.tokens[h.token].expiresAt
  {
    RunKeepsInv(db, es);
    assert HonourStands(Run(db, es), Run(db, es).honoured[k]);
  }

  // ----- When a call goes through, and what it does -----

  ghost predicate PathHas(path: string, part: string) {
    exists before: string, after: string :: path == before + part + after
  }

  lemma PartSplits(path: string, part: string, i: nat)
    requires i <= |path| && part <= path[i..]
    ensures path == path[..i] + part + path[i..][|part|..]
  {
  }

  lemma PartStands(before: string, part: string, after: string)
    ensures part <= (before + part + after)[|before|..]
  {
    assert (before + part + after)[|before|..] == part + after;
  }

  lemma ContainsIff(path: string, part: string)
    ensures Contains(path, part) <==> PathHas(path, part)
  {
    if Contains(path, part) {
      var i :| 0 <= i <= |path| && part <= path[i..];
      PartSplits(path, part, i);
    }
    if PathHas(path, part) {
      var before, after :| path == before + part + after;
      PartStands(before, part, after);
    }
  }

  /** A stored recovery token of an active user, unused and not expired, is presented by an
      anonymous request on the reset path. */
  ghost predicate RecoveryDue(db: Db, ctx: Context, hash: Hash, now: int, i: RowId) {
    && ctx.userId == "anonymous" && PathHas(ctx.path, "/auth/password-recovery/reset")
    && i in db.tokens
    && var t := db.tokens[i];
       && t.hash == hash && t.purpose == PasswordRecovery && t.consumedAt == None && now < t.expiresAt
       && t.user.Some? && t.user.value in db.users && db.users[t.user.value].active
  }

  /** The same of a verification token, whose address is the user's still. */
  ghost predicate VerificationDue(db: Db, ctx: Context, hash: Hash, now: int, i: RowId) {
    && ctx.userId == "anonymous" && PathHas(ctx.path, "/auth/email-verification/verify") && ctx.columnsWin
    && i in db.tokens
    && var t := db.tokens[i];
       && t.hash == hash && t.purpose == EmailVerification && t.consumedAt == None && now < t.expiresAt
       && t.user.Some? && t.user.value in db.users
       && db.users[t.user.value].active && Lower(db.users[t.user.value].email) == Lower(t.email)
  }

  /** The same of an invitation with a tenant and a role the tenant has. */
  ghost predicate InviteDue(db: Db, ctx: Context, hash: Hash, now: int, i: RowId) {
    && ctx.userId == "anonymous" && PathHas(ctx.path, "/auth/invitations/accept") && ctx.columnsWin
    && i in db.tokens
    && var t := db.tokens[i];
       && t.hash == hash && t.purpose == InviteAcceptance && t.consumedAt == None && now < t.expiresAt
       && t.tenant != "" && (t.tenant, if t.role == "" then "member" else t.role) in db.roles
  }

  /** A recovery goes through exactly when it is due: it sets that user's password and
      consumes that token; and otherwise it changes nothing. */
  lemma RecoveryIff(db: Db, e: Event)
    requires RowsInv(db) && e.ConsumeRecovery? && Enabled(db, e)
    ensures (exists i :: RecoveryDue(db, e.ctx, e.hash, e.now, i)) <==> Next(db, e) != db
    ensures forall i :: RecoveryDue(db, e.ctx, e.hash, e.now, i) ==>
              var u := db.tokens[i].user.value;
              && Next(db, e).users
                 == db.users[u := db.users[u].(password := e.password, passwordChangedAt := Some(e.now))]
              && Next(db, e).tokens == db.tokens[i := db.tokens[i].(consumedAt := Some(e.now))]
              && Next(db, e).honoured == db.honoured + [Honour(i, e.hash, PasswordRecovery, u, e.now)]
              && Next(db, e).memberships == db.memberships && Next(db, e).outbox == db.outbox
  {
    ContainsIff(e.ctx.path, "/auth/password-recovery/reset");
    forall i | RecoveryDue(db, e.ctx, e.hash, e.now, i) ensures e.row == Some(i) {
      assert Honours(db.tokens[i], e.hash, PasswordRecovery, e.now);
    }
    assert Accepts(db, e) ==> RecoveryDue(db, e.ctx, e.hash, e.now, e.row.value);
  }

  /** A verification goes through exactly when it is due: it dates that user's verification,
      if it has no date, and consumes that token; and otherwise it changes nothing. */
  lemma VerificationIff(db: Db, e: Event)
    requires RowsInv(db) && e.ConsumeVerification? && Enabled(db, e)
    ensures (exists i :: VerificationDue(db, e.ctx, e.hash, e.now, i)) <==> Next(db, e) != db
    ensures forall i :: VerificationDue(db, e.ctx, e.hash, e.now, i) ==>
              var u := db.tokens[i].user.value;
              && Next(db, e).users == db.users[u := db.users[u].(verifiedAt :=
                   if db.users[u].verifiedAt == None then Some(e.now) else db.users[u].verifiedAt)]
              && Next(db, e).tokens == db.tokens[i := db.tokens[i].(consumedAt := Some(e.now))]
              && Next(db, e).honoured == db.honoured + [Honour(i, e.hash, EmailVerification, u, e.now)]
              && Next(db, e).passwordChanges == db.passwordChanges
              && Next(db, e).memberships == db.memberships && Next(db, e).outbox == db.outbox
  {
    ContainsIff(e.ctx.path, "/auth/email-verification/verify");
    forall i | VerificationDue(db, e.ctx, e.hash, e.now, i) ensures e.row == Some(i) {
      assert Honours(db.tokens[i], e.hash, EmailVerification, e.now);
    }
    assert Accepts(db, e) ==> VerificationDue(db, e.ctx, e.hash, e.now, e.row.value);
  }

  /** The account an accepted invitation leaves: the one with its address, or a new one. */
  function Accepted(db: Db, t: Token, e: Event): User
    requires e.ConsumeInvite? && (e.account.Some? ==> e.account.value in db.users)
  {
    var name := if e.displayName != "" then e.displayName
                else if t.displayName != "" then t.displayName else LocalPart(t.email);
    match e.account
    case None => User(t.tenant, Lower(t.email), e.password, name, true, Some(e.now), Some(e.now))
    case Some(u) =>
      var was := db.users[u];
      User(was.tenant, was.email, e.password, name, true,
           if was.verifiedAt == None then Some(e.now) else was.verifiedAt, Some(e.now))
  }

  /** An acceptance goes through exactly when it is due: the account with the address, or a
      new one, is active with the password and the role; and otherwise it changes nothing. */
  lemma InviteIff(db: Db, e: Event)
    requires RowsInv(db) && e.ConsumeInvite? && Enabled(db, e)
    ensures (exists i :: InviteDue(db, e.ctx, e.hash, e.now, i)) <==> Next(db, e) != db
    ensures forall i :: InviteDue(db, e.ctx, e.hash, e.now, i) ==>
              var t := db.tokens[i];
              var u := if e.account == None then e.newUser else e.account.value;
              && (e.account.Some? ==> u in db.users && Lower(db.users[u].email) == Lower(t.email))
              && (e.account.None? ==> forall v :: v in db.users ==> Lower(db.users[v].email) != Lower(t.email))
              && Next(db, e).users == db.users[u := Accepted(db, t, e)]
              && Next(db, e).memberships
                 == db.memberships[(t.tenant, u) := Membership(if t.role == "" then "member" else t.role, true)]
              && Next(db, e).tokens == db.tokens[i := t.(consumedAt := Some(e.now), user := Some(u))]
              && Next(db, e).honoured == db.honoured + [Honour(i, e.hash, InviteAcceptance, u, e.now)]
              && Next(db, e).outbox == db.outbox
  {
    ContainsIff(e.ctx.path, "/auth/invitations/accept");
    forall i | InviteDue(db, e.ctx, e.hash, e.now, i) ensures e.row == Some(i) {
      assert Honours(db.tokens[i], e.hash, InviteAcceptance, e.now);
    }
    assert Accepts(db, e) ==> InviteDue(db, e.ctx, e.hash, e.now, e.row.value);
  }

  /** Who may ask for a token, and what asking does: the user's pending tokens of that purpose
      are consumed and no others; one token and one mail are added. */
  lemma CreateActionIff(db: Db, e: Event)
    requires e.CreateAction? && Enabled(db, e)
    ensures var goes :=
              if e.purpose == PasswordRecovery
              then e.ctx.userId == "anonymous" && PathHas(e.ctx.path, "/auth/password-recovery/request")
              else e.ctx.userId != "anonymous" && e.ctx.userId == e.user
                   && PathHas(e.ctx.path, "/auth/email-verification/request");
            var next := Next(db, e);
            && (!goes ==> next == db)
            && (goes ==>
                  && next.tokens.Keys == db.tokens.Keys + {e.id}
                  && next.tokens[e.id] == Token(e.tenant, Some(e.user), Lower(e.email), e.purpose, e.hash, e.expiresAt,
                                                None, false, "", "")
                  && next.users == db.users && next.memberships == db.memberships
                  && next.outbox == db.outbox + [Mail(e.purpose, Lower(e.email), false)]
                  && forall i :: i in db.tokens ==>
                       var t := db.tokens[i];
                       next.tokens[i] == if t.user == Some(e.user) && t.purpose == e.purpose && t.consumedAt == None
                                         then t.(consumedAt := Some(e.now)) else t)
  {
    ContainsIff(e.ctx.path, "/auth/password-recovery/request");
    ContainsIff(e.ctx.path, "/auth/email-verification/request");
  }

  predicate Invitable(role: string) {
    || role == "admin" || role == "teacher" || role == "accountant" || role == "staff" || role == "parent"
    || role == "student" || role == "storekeeper" || role == "librarian" || role == "member"
  }

  lemma InvitableIff(role: string)
    ensures role in INVITABLE_ROLES <==> Invitable(role)
  {
  }

  /** The same of an invitation: the pending invitations of that tenant and address are
      consumed and no others. */
  lemma CreateInvitationIff(db: Db, e: Event)
    requires e.CreateInvitation? && Enabled(db, e)
    ensures var goes := e.displayName != "" && (e.managed ==> Invitable(e.role)) && e.mailOk;
            var next := Next(db, e);
            && (!goes ==> next == db)
            && (goes ==>
                  && next.tokens.Keys == db.tokens.Keys + {e.id}
                  && next.tokens[e.id] == Token(e.tenant, None, e.email, InviteAcceptance, e.hash, e.expiresAt, None,
                                                e.managed, e.role, e.displayName)
                  && next.users == db.users && next.memberships == db.memberships
                  && next.outbox == db.outbox + [Mail(InviteAcceptance, e.email, true)]
                  && forall i :: i in db.tokens ==>
                       var t := db.tokens[i];
                       next.tokens[i] == if t.tenant == e.tenant && Lower(t.email) == Lower(e.email)
                                            && t.purpose == InviteAcceptance && t.consumedAt == None
                                         then t.(consumedAt := Some(e.now)) else t)
  {
    InvitableIff(e.role);
  }

  /** Only a tenant's own pending managed invitation can be resent, and only to an invitable
      role; it keeps everything but its hash, its expiry and the defaults filled in. */
  lemma ResendIff(db: Db, e: Event)
    requires e.ResendInvitation? && Enabled(db, e)
    ensures var goes :=
              && e.id in db.tokens && db.tokens[e.id].tenant == e.tenant && db.tokens[e.id].purpose == InviteAcceptance
              && db.tokens[e.id].consumedAt == None && db.tokens[e.id].managed && e.mailOk
              && (db.tokens[e.id].role == "" || Invitable(db.tokens[e.id].role));
            && (!goes ==> Next(db, e) == db)
            && (goes ==>
                  var t := db.tokens[e.id];
                  && Next(db, e).tokens == db.tokens[e.id := t.(
                       hash := e.hash, expiresAt := e.expiresAt, role := if t.role == "" then "member" else t.role,
                       displayName := if t.displayName == "" then t.email else t.displayName)]
                  && Next(db, e).users == db.users && Next(db, e).memberships == db.memberships
                  && Next(db, e).outbox == db.outbox + [Mail(InviteAcceptance, Lower(t.email), true)])
  {
    if e.id in db.tokens {
      InvitableIff(db.tokens[e.id].role);
      InvitableIff("member");
    }
  }

  /** And only such an invitation can be revoked, which consumes it and nothing else. */
  lemma RevokeIff(db: Db, e: Event)
    requires e.RevokeInvitation? && Enabled(db, e)
    ensures var goes :=
              && e.id in db.tokens && db.tokens[e.id].tenant == e.tenant && db.tokens[e.id].purpose == InviteAcceptance
              && db.tokens[e.id].consumedAt == None && db.tokens[e.id].managed;
            Next(db, e) ==
              if goes then db.(tokens := db.tokens[e.id := db.tokens[e.id].(consumedAt := Some(e.now))]) else db
  {
  }

  /** A recovery asked for and used before it expires sets the password, once. */
  lemma RecoveryRoundTrip(db: Db, ask: Event, use: Event)
    requires Inv(db) && ask.CreateAction? && ask.purpose == PasswordRecovery && Enabled(db, ask)
    requires ask.ctx.userId == "anonymous" && PathHas(ask.ctx.path, "/auth/password-recovery/request")
    requires db.users[ask.user].active
    requires use.ConsumeRecovery? && use.hash == ask.hash && Enabled(Next(db, ask), use)
    requires use.ctx.userId == "anonymous" && PathHas(use.ctx.path, "/auth/password-recovery/reset")
    ensures var used := Next(Next(db, ask), use);
            if use.now < ask.expiresAt
            then used.users == db.users[ask.user := db.users[ask.user].(
                   password := use.password, passwordChangedAt := Some(use.now))] && Retired(used, ask.hash)
            else used == Next(db, ask)
  {
    var asked := Next(db, ask);
    CreateActionIff(db, ask);
    StepKeepsInv(db, ask);
    RecoveryIff(asked, use);
    if use.now < ask.expiresAt {
      assert RecoveryDue(asked, use.ctx, use.hash, use.now, ask.id);
      ReplacingRetiresHash(asked, use, ask.id);
    } else {
      assert forall i :: i in asked.tokens && asked.tokens[i].hash == ask.hash ==> i == ask.id;
    }
  }

  /** The name an invited user gets for want of another: the address up to its first at-sign. */
  lemma {:induction false} LocalPartIsBeforeTheAt(email: string)
    ensures LocalPart(email) <= email && '@' !in LocalPart(email)
    ensures |LocalPart(email)| < |email| ==> email[|LocalPart(email)|] == '@'
  {
    if email != "" && email[0] != '@' {
      LocalPartIsBeforeTheAt(email[1..]);
      assert email == [email[0]] + email[1..];
    }
  }
}
