/** The life of a team invitation: sent, accepted, activated at login, revoked, or lapsed. */
module Invitations {
  import opened Wrappers
  import Team = TeamAssignments
  import Text

  const INVITATION_TTL_MS: int := 7 * 24 * 60 * 60 * 1000

  datatype Email = Email(text: string)
  type UserId = Team.UserId
  type OrgId = Team.OrgId
  /** The hash of an invitation token; the token itself is never stored. */
  datatype Token = Token(value: nat)

  datatype InvitationStatus = PENDING | ACCEPTED | ACTIVATED | EXPIRED | REVOKED
  datatype MembershipStatus = INVITED | ACTIVE | SUSPENDED | LEFT

  datatype Invitation = Invitation(email: Email, userId: Option<UserId>, org: OrgId, token: Token,
                                   status: InvitationStatus,
                                   expiresAt: int, acceptedAt: Option<int>, activatedAt: Option<int>)

  datatype User = User(id: UserId, email: Option<Email>)

  datatype Seat = Seat(user: UserId, org: OrgId)

  /** An invitation's id is its position in the table. */
  datatype Tables = Tables(invitations: seq<Invitation>, users: seq<User>, memberships: map<Seat, MembershipStatus>)

  datatype Error = NotAdmitted | Conflict | TransactionFailed | TokenMissing | Invalid | AlreadyRevoked | AlreadyUsed
                 | Lapsed | InvalidCredentials | WrongAccount | WrongEmail | SeedingFailed

  // ---- E-mail addresses --------------------------------------------------------------

  function NormalizeEmail(e: Email): Email { Email(Text.Lower(Text.Trim(e.text, Text.JS_BLANKS))) }

  /** How the database compares e-mail addresses in these queries. */
  predicate SameIgnoringCase(stored: Email, e: Email) { Text.Lower(stored.text) == Text.Lower(e.text) }

  /** The texts agree in every letter up to case, once blanks at both ends are cut off. */
  ghost predicate SameAddress(e: Email, f: Email) {
    Text.SameLetters(Text.Trim(e.text, Text.JS_BLANKS), Text.Trim(f.text, Text.JS_BLANKS))
  }

  /** Normalising identifies exactly the texts of one address and keeps all others apart. */
  lemma NormalizeSameIff(e: Email, f: Email)
    ensures NormalizeEmail(e) == NormalizeEmail(f) <==> SameAddress(e, f)
  {
    Text.LowerSameIff(Text.Trim(e.text, Text.JS_BLANKS), Text.Trim(f.text, Text.JS_BLANKS));
  }

  /** On trimmed texts that is agreement letter by letter; blanks added at either end change nothing. */
  lemma AddressesOf(left: string, s: string, right: string, t: string)
    requires Text.Trimmed(s, Text.JS_BLANKS) && Text.Trimmed(t, Text.JS_BLANKS)
    requires Text.AllIn(left, Text.JS_BLANKS) && Text.AllIn(right, Text.JS_BLANKS)
    ensures NormalizeEmail(Email(left + s + right)) == NormalizeEmail(Email(t))
            <==> |s| == |t| && forall i | 0 <= i < |s| :: Text.SameLetter(s[i], t[i])
    ensures NormalizeEmail(Email(left + s + right)) == NormalizeEmail(Email(s))
  {
    Text.TrimOfPadded(left, s, right, Text.JS_BLANKS);
    Text.TrimOfPadded("", s, "", Text.JS_BLANKS);
    Text.TrimOfPadded("", t, "", Text.JS_BLANKS);
    assert "" + s + "" == s && "" + t + "" == t;
    NormalizeSameIff(Email(left + s + right), Email(t));
  }

  lemma SameIgnoringCaseIff(stored: Email, e: Email)
    ensures SameIgnoringCase(stored, e) <==> Text.SameLetters(stored.text, e.text)
  {
    Text.LowerSameIff(stored.text, e.text);
  }

  lemma LowerKeepsBlanks(s: string)
    ensures Text.Trimmed(Text.Lower(s), Text.JS_BLANKS) <==> Text.Trimmed(s, Text.JS_BLANKS)
  {
    assert s != [] ==> Text.Lower(s)[0] == Text.LowerChar(s[0]) && Text.Lower(s)[|s| - 1] == Text.LowerChar(s[|s| - 1]);
  }

  /** The address a query for a normalised e-mail finds is one that normalises to it. */
  lemma MatchNormalizes(stored: Email, e: Email)
    ensures NormalizeEmail(NormalizeEmail(e)) == NormalizeEmail(e)
    ensures SameIgnoringCase(stored, NormalizeEmail(e)) ==> NormalizeEmail(stored) == NormalizeEmail(e)
    ensures stored == NormalizeEmail(stored) ==>
            (SameIgnoringCase(stored, NormalizeEmail(e)) <==> stored == NormalizeEmail(e))
  {
    var t := Text.Trim(e.text, Text.JS_BLANKS);
    var n := Text.Lower(t);
    Text.TrimTrims(e.text, Text.JS_BLANKS);
    Text.LowerIdempotent(t);
    LowerKeepsBlanks(t);
    TrimmedStays(n);
    if Text.Lower(stored.text) == n {
      LowerKeepsBlanks(stored.text);
      TrimmedStays(stored.text);
    }
    Text.LowerIdempotent(Text.Trim(stored.text, Text.JS_BLANKS));
  }

  lemma TrimmedStays(s: string)
    requires Text.Trimmed(s, Text.JS_BLANKS)
    ensures Text.Trim(s, Text.JS_BLANKS) == s
  {
  }

  // ---- Queries -----------------------------------------------------------------------

  predicate Open(inv: Invitation) { inv.status == PENDING || inv.status == ACCEPTED }

  function FindByToken(rows: seq<Invitation>, token: Token): (r: Option<nat>)
    ensures r.Some? ==> r.value < |rows| && rows[r.value].token == token
    ensures r.None? <==> forall i | 0 <= i < |rows| :: rows[i].token != token
  {
    if rows == [] then None
    else if rows[|rows| - 1].token == token then Some(|rows| - 1)
    else FindByToken(rows[..|rows| - 1], token)
  }

  /** The first user, in table order, with the given e-mail whatever its case. */
  function FindByEmail(users: seq<User>, e: Email): (r: Option<UserId>)
    ensures r.None? <==> forall i | 0 <= i < |users| :: !HasEmail(users[i], e)
    ensures r.Some? ==> exists i :: 0 <= i < |users| && users[i].id == r.value && HasEmail(users[i], e)
  {
    if users == [] then None
    else if HasEmail(users[0], e) then Some(users[0].id)
    else
      assert users == [users[0]] + users[1..];
      FindByEmail(users[1..], e)
  }

  predicate HasEmail(u: User, e: Email) { u.email.Some? && SameIgnoringCase(u.email.value, e) }

  function FindUser(users: seq<User>, id: UserId): (r: Option<User>)
    ensures r.None? <==> forall i | 0 <= i < |users| :: users[i].id != id
    ensures r.Some? ==> r.value in users && r.value.id == id
  {
    if users == [] then None
    else if users[0].id == id then Some(users[0])
    else
      assert users == [users[0]] + users[1..];
      FindUser(users[1..], id)
  }

  function Revoked(inv: Invitation, email: Email, org: OrgId): Invitation {
    if SameIgnoringCase(inv.email, email) && inv.org == org && Open(inv) then inv.(status := REVOKED) else inv
  }

  function RevokeOpen(rows: seq<Invitation>, email: Email, org: OrgId): (r: seq<Invitation>)
    ensures |r| == |rows|
  {
    seq(|rows|, i requires 0 <= i < |rows| => Revoked(rows[i], email, org))
  }

  /** What looking a token up does to the table it is given, and what it returns or throws. */
  function Resolve(rows: seq<Invitation>, token: Token, now: int): (r: (seq<Invitation>, Result<nat, Error>))
    ensures r.1.Ok? ==> r.1.value < |rows| && r.0 == rows && Open(rows[r.1.value]) && now < rows[r.1.value].expiresAt
                        && rows[r.1.value].token == token
  {
    match FindByToken(rows, token)
    case None => (rows, Err(Invalid))
    case Some(i) =>
      var inv := rows[i];
      if inv.status == REVOKED then (rows, Err(AlreadyRevoked))
      else if inv.status == ACTIVATED then (rows, Err(AlreadyUsed))
      else if inv.expiresAt <= now then (if Open(inv) then rows[i := inv.(status := EXPIRED)] else rows, Err(Lapsed))
      else if inv.status == EXPIRED then (rows, Err(Lapsed))
      else (rows, Ok(i))
  }

  // ---- The three operations as steps -------------------------------------------------

  /** What the caller's request resolves to before the tables are touched, and what happens around them. */
  datatype Op =
    // `admitted` is the organisation the role and inviter checks let through, `newUser` the id a new user would
    // get, and `committed` says that the rest of the transaction goes through.
    | Invite(now: int, email: Email, admitted: Option<OrgId>, token: Token, newUser: UserId, committed: bool)
    | Accept(now: int, given: Option<Token>)
    // `seeded` says that the invitation's initial station assignments, if any, are valid.
    | Activate(now: int, user: UserId, token: Token, seeded: bool)
    // Anything else the system does to users and memberships; deleting users clears them from invitations.
    | Elsewhere(users: seq<User>, memberships: map<Seat, MembershipStatus>, deleted: set<UserId>)

  datatype Outcome = Outcome(db: Tables, result: Result<nat, Error>)

  function DoInvite(db: Tables, now: int, email: Email, admitted: Option<OrgId>, token: Token, newUser: UserId,
                    committed: bool): Outcome
  {
    if admitted.None? then Outcome(db, Err(NotAdmitted))
    else
      var e, org := NormalizeEmail(email), admitted.value;
      var existing := FindByEmail(db.users, e);
      if existing.Some? && Seat(existing.value, org) in db.memberships
         && db.memberships[Seat(existing.value, org)] == ACTIVE
      then
        Outcome(db, Err(Conflict))
      else
        var revoked := db.(invitations := RevokeOpen(db.invitations, e, org));
        if !committed || FindByToken(db.invitations, token).Some?
           || (existing.None? && FindUser(db.users, newUser).Some?)
        then
          Outcome(revoked, Err(TransactionFailed))
        else
          var user := GetOr(existing, newUser);
          Outcome(Tables(revoked.invitations + [NewInvitation(e, user, org, token, now)],
                         if existing.Some? then db.users else db.users + [User(newUser, Some(e))],
                         db.memberships[Seat(user, org) := INVITED]),
                  Ok(|db.invitations|))
  }

  function NewInvitation(e: Email, user: UserId, org: OrgId, token: Token, now: int): Invitation {
    Invitation(e, Some(user), org, token, PENDING, now + INVITATION_TTL_MS, None, None)
  }

  function DoAccept(db: Tables, now: int, token: Option<Token>): Outcome {
    if token.None? then Outcome(db, Err(TokenMissing))
    else
      var (rows, found) := Resolve(db.invitations, token.value, now);
      match found
      case Err(e) => Outcome(db, Err(e))
      case Ok(i) => Outcome(db.(invitations := rows[i := AcceptedRow(rows[i], now)]), Ok(i))
  }

  function AcceptedRow(inv: Invitation, now: int): Invitation {
    if inv.status == PENDING then inv.(status := ACCEPTED, acceptedAt := Some(now)) else inv
  }

  function DoActivate(db: Tables, now: int, userId: UserId, token: Token, seeded: bool): Outcome {
    var (rows, found) := Resolve(db.invitations, token, now);
    var user := FindUser(db.users, userId);
    match found
    case Err(e) => Outcome(db, Err(e))
    case Ok(i) =>
      if user.None? || user.value.email.None? then Outcome(db, Err(InvalidCredentials))
      else if rows[i].userId.Some? && rows[i].userId.value != userId then Outcome(db, Err(WrongAccount))
      else if NormalizeEmail(rows[i].email) != NormalizeEmail(user.value.email.value) then Outcome(db, Err(WrongEmail))
      else if !seeded then Outcome(db, Err(SeedingFailed))
      else Outcome(db.(invitations := rows[i := ActivatedRow(rows[i], userId, now)],
                       memberships := db.memberships[Seat(userId, rows[i].org) := ACTIVE]), Ok(i))
  }

  function ActivatedRow(inv: Invitation, user: UserId, now: int): Invitation {
    inv.(userId := Some(user), status := ACTIVATED, acceptedAt := Some(GetOr(inv.acceptedAt, now)),
      activatedAt := Some(now))
  }

  function Forget(rows: seq<Invitation>, deleted: set<UserId>): (r: seq<Invitation>)
    ensures |r| == |rows|
  {
    seq(|rows|, i requires 0 <= i < |rows| => Forgotten(rows[i], deleted))
  }

  function Forgotten(inv: Invitation, deleted: set<UserId>): Invitation {
    if inv.userId.Some? && inv.userId.value in deleted then inv.(userId := None) else inv
  }

  function Apply(db: Tables, op: Op): Outcome {
    match op
    case Invite(now, email, admitted, token, newUser, committed) =>
      DoInvite(db, now, email, admitted, token, newUser, committed)
    case Accept(now, token) => DoAccept(db, now, token)
    case Activate(now, user, token, seeded) => DoActivate(db, now, user, token, seeded)
    case Elsewhere(users, memberships, deleted) =>
      Outcome(Tables(Forget(db.invitations, deleted), users, memberships), Ok(0))
  }

  /** Some user of this id has the address. */
  ghost predicate Owns(users: seq<User>, id: UserId, email: Email) {
    exists u :: u in users && u.id == id && u.email.Some? && SameAddress(u.email.value, email)
  }

  /** A pending invitation to the address for seven days, under the token and naming a user who has the address. */
  ghost predicate MadeOutTo(db: Tables, inv: Invitation, email: Email, org: OrgId, token: Token, now: int) {
    && SameAddress(inv.email, email)
    && inv.userId.Some? && Owns(db.users, inv.userId.value, email)
    && inv.org == org && inv.token == token && inv.status == PENDING && inv.expiresAt == now + 7 * 86_400_000
    && inv.acceptedAt.None? && inv.activatedAt.None?
  }

  lemma InviteTouches(db: Tables, now: int, email: Email, admitted: Option<OrgId>, token: Token, newUser: UserId,
                      committed: bool)
    ensures var o := DoInvite(db, now, email, admitted, token, newUser, committed);
            && |db.invitations| <= |o.db.invitations|
            && db.users <= o.db.users && |o.db.users| <= |db.users| + 1
            && (forall i | 0 <= i < |db.invitations| ::
                  var was := db.invitations[i];
                  !SameAddress(was.email, email) || Some(was.org) != admitted ==> o.db.invitations[i] == was)
            && (o.result.Ok? ==>
                  && admitted.Some? && o.result.value < |o.db.invitations|
                  && MadeOutTo(o.db, o.db.invitations[o.result.value], email, admitted.value, token, now))
  {
    var n := NormalizeEmail(email);
    forall i | 0 <= i < |db.invitations|
      ensures SameIgnoringCase(db.invitations[i].email, n) ==> SameAddress(db.invitations[i].email, email)
    {
      MatchesSameAddress(db.invitations[i].email, email);
    }
    if admitted.Some? {
      InviteMadeOut(db, now, email, admitted.value, token, newUser, committed);
    }
    hide NormalizeEmail, SameIgnoringCase, SameAddress, MadeOutTo, FindByEmail, FindByToken, FindUser;
  }

  lemma MatchesSameAddress(stored: Email, email: Email)
    ensures SameIgnoringCase(stored, NormalizeEmail(email)) ==> SameAddress(stored, email)
    ensures SameAddress(NormalizeEmail(email), email)
  {
    MatchNormalizes(stored, email);
    NormalizeSameIff(stored, email);
    NormalizeSameIff(NormalizeEmail(email), email);
    hide NormalizeEmail, SameIgnoringCase, SameAddress;
  }

  lemma InviteMadeOut(db: Tables, now: int, email: Email, org: OrgId, token: Token, newUser: UserId, committed: bool)
    ensures var o := DoInvite(db, now, email, Some(org), token, newUser, committed);
            o.result.Ok? ==>
              && o.result.value < |o.db.invitations|
              && MadeOutTo(o.db, o.db.invitations[o.result.value], email, org, token, now)
  {
    var n := NormalizeEmail(email);
    var o := DoInvite(db, now, email, Some(org), token, newUser, committed);
    var existing := FindByEmail(db.users, n);
    MatchesSameAddress(n, email);
    if existing.Some? {
      var k :| 0 <= k < |db.users| && db.users[k].id == existing.value && HasEmail(db.users[k], n);
      MatchesSameAddress(db.users[k].email.value, email);
      hide SameAddress;
      assert db.users[k] in db.users && Owns(db.users, existing.value, email);
    } else {
      hide SameAddress;
      var made := User(newUser, Some(n));
      assert made in db.users + [made] && Owns(db.users + [made], newUser, email);
    }
    hide NormalizeEmail, SameIgnoringCase, SameAddress, Owns, FindByEmail, FindByToken, FindUser, RevokeOpen;
  }

  lemma ActivatesOwn(db: Tables, now: int, userId: UserId, token: Token, seeded: bool)
    ensures var o := DoActivate(db, now, userId, token, seeded);
            o.result.Ok? ==> o.result.value < |db.invitations|
                             && Owns(db.users, userId, db.invitations[o.result.value].email)
  {
    var o := DoActivate(db, now, userId, token, seeded);
    if o.result.Ok? {
      var u := FindUser(db.users, userId).value;
      NormalizeSameIff(u.email.value, db.invitations[o.result.value].email);
      assert u in db.users;
    }
  }

  /** Deleting users takes their names off invitations and leaves everything else of them. */
  lemma ForgetMeans(db: Tables, users: seq<User>, memberships: map<Seat, MembershipStatus>, deleted: set<UserId>)
    ensures var after := Apply(db, Elsewhere(users, memberships, deleted)).db;
            && after.users == users && after.memberships == memberships
            && |after.invitations| == |db.invitations|
            && forall i | 0 <= i < |db.invitations| ::
                 var was := db.invitations[i];
                 after.invitations[i]
                 == if exists u :: u in deleted && was.userId == Some(u) then was.(userId := None) else was
  {
  }

  class InvitationService {
    var db: Tables

    constructor (users: seq<User>, memberships: map<Seat, MembershipStatus>)
      ensures db == Tables([], users, memberships)
    {
      db := Tables([], users, memberships);
    }

    /** The revocation is committed on its own; only what follows it is undone when the transaction fails. */
    method InviteUser(now: int, email: Email, admitted: Option<OrgId>, token: Token, newUser: UserId, committed: bool)
      returns (r: Result<nat, Error>)
      modifies this
      ensures Outcome(db, r) == Apply(old(db), Invite(now, email, admitted, token, newUser, committed))
      // Whatever happens, invitations to other addresses and to other organisations stay as they are.
      ensures |old(db).invitations| <= |db.invitations|
      ensures forall i | 0 <= i < |old(db).invitations| ::
                var was := old(db).invitations[i];
                !SameAddress(was.email, email) || Some(was.org) != admitted ==> db.invitations[i] == was
      ensures r.Ok? ==> admitted.Some? && r.value < |db.invitations|
                        && MadeOutTo(db, db.invitations[r.value], email, admitted.value, token, now)
    {
      InviteTouches(db, now, email, admitted, token, newUser, committed);
      hide MadeOutTo, SameAddress;
      hide NormalizeEmail, SameIgnoringCase, FindByEmail, FindByToken, FindUser, RevokeOpen;
      if admitted.None? {
        return Err(NotAdmitted);
      }
      var normalizedEmail, org := NormalizeEmail(email), admitted.value;
      var existingUser := FindByEmail(db.users, normalizedEmail);
      if existingUser.Some? {
        var seat := Seat(existingUser.value, org);
        if seat in db.memberships && db.memberships[seat] == ACTIVE {
          return Err(Conflict);
        }
      }
      ghost var before := db.invitations;
      db := db.(invitations := RevokeOpen(db.invitations, normalizedEmail, org));

      TokensUntouched(before, normalizedEmail, org, token);
      var tx := db;
      if existingUser.None? && FindUser(tx.users, newUser).Some? {
        return Err(TransactionFailed);
      }
      var userId := GetOr(existingUser, newUser);
      if existingUser.None? {
        tx := tx.(users := tx.users + [User(newUser, Some(normalizedEmail))]);
      }
      tx := tx.(memberships := tx.memberships[Seat(userId, org) := INVITED]);
      if !committed || FindByToken(tx.invitations, token).Some? {
        return Err(TransactionFailed);
      }
      tx := tx.(invitations := tx.invitations + [NewInvitation(normalizedEmail, userId, org, token, now)]);
      db := tx;
      r := Ok(|tx.invitations| - 1);
    }

    /** Nothing the transaction wrote survives a throw, the lapsed invitation's new status included. */
    method AcceptInvitationToken(now: int, token: Option<Token>) returns (r: Result<nat, Error>)
      modifies this
      ensures Outcome(db, r) == Apply(old(db), Accept(now, token))
    {
      hide FindByToken;
      if token.None? {
        return Err(TokenMissing);
      }
      var tx := db;
      var (rows, found) := Resolve(tx.invitations, token.value, now);
      tx := tx.(invitations := rows);
      if found.Err? {
        return Err(found.error);
      }
      var i := found.value;
      if tx.invitations[i].status == PENDING {
        tx := tx.(invitations := tx.invitations[i := tx.invitations[i].(status := ACCEPTED, acceptedAt := Some(now))]);
      }
      db := tx;
      r := Ok(i);
    }

    method ActivateInvitationOnLogin(now: int, userId: UserId, token: Token, seeded: bool)
      returns (r: Result<nat, Error>)
      modifies this
      ensures Outcome(db, r) == Apply(old(db), Activate(now, userId, token, seeded))
      // Only the invited address gets in.
      ensures r.Ok? ==> r.value < |old(db).invitations|
                        && Owns(old(db).users, userId, old(db).invitations[r.value].email)
    {
      ActivatesOwn(db, now, userId, token, seeded);
      hide Owns;
      hide FindByToken, FindUser, NormalizeEmail;
      var tx := db;
      var (rows, found) := Resolve(tx.invitations, token, now);
      tx := tx.(invitations := rows);
      if found.Err? {
        return Err(found.error);
      }
      var i := found.value;
      var invitation := tx.invitations[i];
      var user := FindUser(tx.users, userId);
      if user.None? || user.value.email.None? {
        return Err(InvalidCredentials);
      }
      if invitation.userId.Some? && invitation.userId.value != userId {
        return Err(WrongAccount);
      }
      if NormalizeEmail(invitation.email) != NormalizeEmail(user.value.email.value) {
        return Err(WrongEmail);
      }
      tx := tx.(memberships := tx.memberships[Seat(userId, invitation.org) := ACTIVE]);
      tx := tx.(invitations := tx.invitations[i := invitation.(userId := Some(userId), status := ACTIVATED,
                                                               acceptedAt := Some(GetOr(invitation.acceptedAt, now)),
                                                               activatedAt := Some(now))]);
      if !seeded {
        return Err(SeedingFailed);
      }
      db := tx;
      r := Ok(i);
    }
  }

  lemma TokensUntouched(rows: seq<Invitation>, email: Email, org: OrgId, token: Token)
    ensures FindByToken(RevokeOpen(rows, email, org), token).Some? <==> FindByToken(rows, token).Some?
  {
    var after := RevokeOpen(rows, email, org);
    hide SameIgnoringCase;
    assert forall i | 0 <= i < |rows| :: after[i] == Revoked(rows[i], email, org) && after[i].token == rows[i].token;
  }

  // ---- Every run ---------------------------------------------------------------------

  /** One successful activation: who activated which invitation, under which address, and when. */
  datatype Activation = Activation(invitation: nat, user: UserId, email: Email, at: int)

  datatype State = State(db: Tables, log: seq<Activation>)

  function Step(s: State, op: Op): State {
    var o := Apply(s.db, op);
    State(o.db, if op.Activate? && o.result.Ok? then s.log + [Entry(s.db, o.result.value, op.user, op.now)] else s.log)
  }

  function Entry(db: Tables, i: nat, user: UserId, now: int): Activation {
    var u := FindUser(db.users, user);
    Activation(i, user, if u.Some? && u.value.email.Some? then u.value.email.value else Email(""), now)
  }

  function Run(s: State, ops: seq<Op>): State {
    if ops == [] then s else Step(Run(s, ops[..|ops| - 1]), ops[|ops| - 1])
  }

  ghost predicate RowSound(inv: Invitation) {
    && inv.email == NormalizeEmail(inv.email)
    && inv.status != EXPIRED
    && (inv.status == ACTIVATED <==> inv.activatedAt.Some?)
    && (inv.status == PENDING ==> inv.acceptedAt.None?)
    && (inv.status == ACCEPTED || inv.status == ACTIVATED ==> inv.acceptedAt.Some?)
    && (inv.acceptedAt.Some? ==> inv.acceptedAt.value < inv.expiresAt)
    && (inv.activatedAt.Some? ==> inv.activatedAt.value < inv.expiresAt)
  }

  ghost predicate RowsSound(rows: seq<Invitation>) {
    forall i | 0 <= i < |rows| :: RowSound(rows[i])
  }

  /** No two open invitations go to one address in one organisation. */
  ghost predicate OneOpen(rows: seq<Invitation>) {
    forall i, j | 0 <= i < j < |rows| :: !Rivals(rows[i], rows[j])
  }

  ghost predicate Rivals(a: Invitation, b: Invitation) {
    Open(a) && Open(b) && NormalizeEmail(a.email) == NormalizeEmail(b.email) && a.org == b.org
  }

  ghost predicate TokensDistinct(rows: seq<Invitation>) {
    forall i, j | 0 <= i < j < |rows| :: rows[i].token != rows[j].token
  }

  /** Every activation was made before expiry, from the invitation's own address, by the user it names. */
  ghost predicate Proper(a: Activation, rows: seq<Invitation>) {
    && a.invitation < |rows|
    && rows[a.invitation].status == ACTIVATED && rows[a.invitation].activatedAt == Some(a.at)
    && a.at < rows[a.invitation].expiresAt
    && NormalizeEmail(a.email) == rows[a.invitation].email
    && (rows[a.invitation].userId.None? || rows[a.invitation].userId.value == a.user)
  }

  /** The log holds each activated invitation exactly once. */
  ghost predicate LogSound(log: seq<Activation>, rows: seq<Invitation>) {
    && (forall k | 0 <= k < |log| :: Proper(log[k], rows))
    && (forall k, l | 0 <= k < l < |log| :: log[k].invitation != log[l].invitation)
    && (forall i | 0 <= i < |rows| && rows[i].status == ACTIVATED :: Logged(log, i))
  }

  ghost predicate Logged(log: seq<Activation>, i: int) { exists a :: a in log && a.invitation == i }

  ghost predicate Sound(s: State) {
    && RowsSound(s.db.invitations) && OneOpen(s.db.invitations) && TokensDistinct(s.db.invitations)
    && LogSound(s.log, s.db.invitations)
  }

  /** What may happen to an invitation: its status only moves forward, and the two final ones stay. */
  ghost predicate Follows(was: Invitation, now: Invitation) {
    && now.email == was.email && now.org == was.org && now.token == was.token && now.expiresAt == was.expiresAt
    && Rank(was.status) <= Rank(now.status)
    && (was.status == ACTIVATED || was.status == REVOKED ==>
          now.status == was.status && now.acceptedAt == was.acceptedAt && now.activatedAt == was.activatedAt)
  }

  function Rank(s: InvitationStatus): nat {
    match s case PENDING => 0 case ACCEPTED => 1 case EXPIRED => 2 case ACTIVATED => 2 case REVOKED => 2
  }

  ghost predicate AllFollow(was: seq<Invitation>, now: seq<Invitation>) {
    |was| <= |now| && forall i | 0 <= i < |was| :: Follows(was[i], now[i])
  }

  /** A change to a row that keeps it sound, opens nothing and activates nothing. */
  ghost predicate Tame(was: Invitation, now: Invitation) {
    && Follows(was, now) && (RowSound(was) ==> RowSound(now))
    && (now.status == ACTIVATED ==> was.status == ACTIVATED && (now.userId == was.userId || now.userId.None?))
  }

  ghost predicate AllTame(was: seq<Invitation>, now: seq<Invitation>) {
    |was| == |now| && forall i | 0 <= i < |was| :: Tame(was[i], now[i])
  }

  lemma FollowingKeepsOneOpen(was: seq<Invitation>, now: seq<Invitation>)
    requires OneOpen(was) && TokensDistinct(was) && AllFollow(was, now) && |was| == |now|
    ensures OneOpen(now) && TokensDistinct(now)
  {
    hide NormalizeEmail;
    forall i, j | 0 <= i < j < |now| ensures !Rivals(now[i], now[j]) && now[i].token != now[j].token {
      assert Follows(was[i], now[i]) && Follows(was[j], now[j]);
      assert !Rivals(was[i], was[j]);
    }
  }

  lemma TameKeeps(s: State, now: seq<Invitation>)
    requires Sound(s) && AllTame(s.db.invitations, now)
    ensures Sound(State(s.db.(invitations := now), s.log)) && AllFollow(s.db.invitations, now)
  {
    var was := s.db.invitations;
    hide NormalizeEmail;
    FollowingKeepsOneOpen(was, now);
    hide OneOpen, TokensDistinct, RowSound, Follows, Logged;
    forall k | 0 <= k < |s.log| ensures Proper(s.log[k], now) {
      ProperKept(s.log[k], was, now);
    }
  }

  lemma ProperKept(a: Activation, was: seq<Invitation>, now: seq<Invitation>)
    requires Proper(a, was) && |was| <= |now| && Follows(was[a.invitation], now[a.invitation])
    requires now[a.invitation].userId == was[a.invitation].userId || now[a.invitation].userId.None?
    ensures Proper(a, now)
  {
  }

  lemma RevokeTame(rows: seq<Invitation>, email: Email, org: OrgId)
    ensures AllTame(rows, RevokeOpen(rows, email, org))
  {
    hide NormalizeEmail, SameIgnoringCase;
  }

  lemma ForgetTame(rows: seq<Invitation>, deleted: set<UserId>)
    ensures AllTame(rows, Forget(rows, deleted))
  {
    hide NormalizeEmail;
  }

  /** After the revocation nothing open is left for the address in the organisation. */
  lemma RevokedLeavesNoRival(rows: seq<Invitation>, e: Email, org: OrgId)
    requires RowsSound(rows)
    ensures forall i | 0 <= i < |rows| :: var inv := RevokeOpen(rows, NormalizeEmail(e), org)[i];
              inv.email == NormalizeEmail(e) && inv.org == org ==> !Open(inv)
  {
    forall i | 0 <= i < |rows|
      ensures var inv := RevokeOpen(rows, NormalizeEmail(e), org)[i];
              inv.email == NormalizeEmail(e) && inv.org == org ==> !Open(inv)
    {
      assert RowSound(rows[i]);
      MatchNormalizes(rows[i].email, e);
    }
  }

  lemma InviteKeeps(s: State, now: int, email: Email, admitted: Option<OrgId>, token: Token, newUser: UserId,
                    committed: bool)
    requires Sound(s)
    ensures var after := Step(s, Invite(now, email, admitted, token, newUser, committed));
            Sound(after) && AllFollow(s.db.invitations, after.db.invitations)
  {
    var op := Invite(now, email, admitted, token, newUser, committed);
    hide FindByEmail, FindUser, NormalizeEmail, SameIgnoringCase, LogSound, OneOpen, TokensDistinct;
    var o := DoInvite(s.db, now, email, admitted, token, newUser, committed);
    assert Step(s, op) == State(o.db, s.log);
    if o.db.invitations == s.db.invitations {
      NothingFollows(s.db.invitations);
      return;
    }
    var e, org := NormalizeEmail(email), admitted.value;
    var rows := RevokeOpen(s.db.invitations, e, org);
    RevokeTame(s.db.invitations, e, org);
    TameKeeps(s, rows);
    if o.result.Ok? {
      TokensUntouched(s.db.invitations, e, org, token);
      RevokedLeavesNoRival(s.db.invitations, email, org);
      MatchNormalizes(e, email);
      AddedKeeps(State(s.db.(invitations := rows), s.log),
                 NewInvitation(e, GetOr(FindByEmail(s.db.users, e), newUser), org, token, now));
    }
  }

  lemma NothingFollows(rows: seq<Invitation>)
    ensures AllFollow(rows, rows)
  {
  }

  lemma AddedKeeps(s: State, inv: Invitation)
    requires Sound(s) && RowSound(inv) && inv.status == PENDING && FindByToken(s.db.invitations, inv.token).None?
    requires forall i | 0 <= i < |s.db.invitations| ::
               s.db.invitations[i].email == inv.email && s.db.invitations[i].org == inv.org ==>
                 !Open(s.db.invitations[i])
    ensures Sound(State(s.db.(invitations := s.db.invitations + [inv]), s.log))
  {
    var rows := s.db.invitations;
    hide NormalizeEmail, FindByToken, Logged;
    forall i | 0 <= i < |rows| ensures !Rivals(rows[i], inv) && rows[i].token != inv.token {
      assert RowSound(rows[i]);
    }
    hide RowSound, Rivals;
    forall k | 0 <= k < |s.log| ensures Proper(s.log[k], rows + [inv]) {
      assert Proper(s.log[k], rows);
    }
  }

  lemma ReplacedFollows(rows: seq<Invitation>, i: nat, inv: Invitation)
    requires i < |rows| && Follows(rows[i], inv)
    ensures AllFollow(rows, rows[i := inv])
    ensures Tame(rows[i], inv) ==> AllTame(rows, rows[i := inv])
  {
    hide NormalizeEmail;
  }

  lemma AcceptKeeps(s: State, now: int, token: Option<Token>)
    requires Sound(s)
    ensures var after := Step(s, Accept(now, token));
            Sound(after) && AllFollow(s.db.invitations, after.db.invitations)
  {
    hide NormalizeEmail, FindByToken, LogSound, OneOpen, TokensDistinct;
    var o, rows := DoAccept(s.db, now, token), s.db.invitations;
    assert Step(s, Accept(now, token)) == State(o.db, s.log);
    if o.result.Ok? {
      var i := o.result.value;
      assert RowSound(rows[i]);
      ReplacedFollows(rows, i, AcceptedRow(rows[i], now));
      TameKeeps(s, o.db.invitations);
    } else {
      NothingFollows(rows);
    }
  }

  /**
   * An activation goes through exactly when the token resolves, the account is the invited one, and its address
   * matches.
   */
  lemma ActivateIff(db: Tables, now: int, user: UserId, token: Token, seeded: bool)
    ensures var found := FindByToken(db.invitations, token);
            var u := FindUser(db.users, user);
            DoActivate(db, now, user, token, seeded).result.Ok?
            <==> seeded && u.Some? && u.value.email.Some? && found.Some?
                 && CanActivate(db.invitations[found.value], u.value, now)
    ensures var o := DoActivate(db, now, user, token, seeded);
            && (o.result.Err? ==> o.db == db)
            && (o.result.Ok? ==>
                  && o.result.value < |db.invitations|
                  && OnlyRowChanged(db.invitations, o.db.invitations, o.result.value)
                  && (var was := db.invitations[o.result.value];
                      o.db.invitations[o.result.value]
                      == was.(userId := Some(user), status := ACTIVATED, activatedAt := Some(now),
                           acceptedAt := if was.acceptedAt.Some? then was.acceptedAt else Some(now)))
                  && o.db.users == db.users
                  && o.db.memberships == db.memberships[Seat(user, db.invitations[o.result.value].org) := ACTIVE])
  {
    hide NormalizeEmail, FindByToken, FindUser;
  }

  /** What a token is answered: whether it is known, spent, lapsed or open; and what looking it up would write. */
  lemma TokenAnswers(rows: seq<Invitation>, token: Token, now: int)
    ensures var (after, r) := Resolve(rows, token, now);
            match FindByToken(rows, token)
            case None => r == Err(Invalid) && after == rows
            case Some(i) =>
              var late := now >= rows[i].expiresAt;
              && (r == Err(AlreadyRevoked) <==> rows[i].status == REVOKED)
              && (r == Err(AlreadyUsed) <==> rows[i].status == ACTIVATED)
              && (r == Err(Lapsed) <==> rows[i].status == EXPIRED || (rows[i].status in {PENDING, ACCEPTED} && late))
              && (r == Ok(i) <==> rows[i].status in {PENDING, ACCEPTED} && !late)
              && after == if rows[i].status in {PENDING, ACCEPTED} && late then rows[i := rows[i].(status := EXPIRED)]
                          else rows
  {
    hide FindByToken;
  }

  /** Why a login with an open token is refused: no account, another's invitation, another address, bad stations. */
  lemma ActivateAnswers(db: Tables, now: int, user: UserId, token: Token, seeded: bool)
    requires var (rows, found) := Resolve(db.invitations, token, now); found.Ok?
    ensures var inv := db.invitations[Resolve(db.invitations, token, now).1.value];
            var r := DoActivate(db, now, user, token, seeded).result;
            match FindUser(db.users, user)
            case None => r == Err(InvalidCredentials)
            case Some(u) =>
              var other := inv.userId.Some? && inv.userId != Some(user);
              && (r == Err(InvalidCredentials) <==> u.email.None?)
              && (r == Err(WrongAccount) <==> u.email.Some? && other)
              && (r == Err(WrongEmail) <==> u.email.Some? && !other && !SameAddress(u.email.value, inv.email))
              && (r == Err(SeedingFailed)
                  <==> u.email.Some? && !other && SameAddress(u.email.value, inv.email) && !seeded)
  {
    var inv := db.invitations[Resolve(db.invitations, token, now).1.value];
    var u := FindUser(db.users, user);
    if u.Some? && u.value.email.Some? {
      NormalizeSameIff(u.value.email.value, inv.email);
    }
    hide NormalizeEmail, FindUser, FindByToken, SameAddress;
  }

  ghost predicate OnlyRowChanged(was: seq<Invitation>, now: seq<Invitation>, i: nat) {
    |now| == |was| && forall j | 0 <= j < |was| && j != i :: now[j] == was[j]
  }

  /**
   * A token can be accepted as long as its invitation is open and unexpired, again and again; the first time counts.
   */
  lemma AcceptIff(db: Tables, now: int, token: Token)
    ensures var found := FindByToken(db.invitations, token);
            DoAccept(db, now, Some(token)).result.Ok?
            <==> found.Some? && Open(db.invitations[found.value]) && now < db.invitations[found.value].expiresAt
    ensures var o := DoAccept(db, now, Some(token));
            && o.db.users == db.users && o.db.memberships == db.memberships
            && (o.result.Err? ==> o.db == db)
            && (o.result.Ok? ==>
                  && o.result.value < |db.invitations|
                  && OnlyRowChanged(db.invitations, o.db.invitations, o.result.value)
                  && var was, row := db.invitations[o.result.value], o.db.invitations[o.result.value];
                     row == was.(status := ACCEPTED,
                              acceptedAt := if was.status == PENDING then Some(now) else was.acceptedAt))
    ensures DoAccept(db, now, None) == Outcome(db, Err(TokenMissing))
  {
    hide FindByToken;
  }

  ghost predicate CanActivate(inv: Invitation, u: User, now: int)
    requires u.email.Some?
  {
    && Open(inv) && now < inv.expiresAt
    && (inv.userId.None? || inv.userId.value == u.id)
    && NormalizeEmail(u.email.value) == NormalizeEmail(inv.email)
  }

  lemma ActivateKeeps(s: State, now: int, user: UserId, token: Token, seeded: bool)
    requires Sound(s)
    ensures var after := Step(s, Activate(now, user, token, seeded));
            Sound(after) && AllFollow(s.db.invitations, after.db.invitations)
  {
    hide NormalizeEmail, FindByToken, FindUser, LogSound, OneOpen, TokensDistinct;
    var o, rows := DoActivate(s.db, now, user, token, seeded), s.db.invitations;
    if o.result.Err? {
      assert Step(s, Activate(now, user, token, seeded)) == s;
      NothingFollows(rows);
      return;
    }
    var i := o.result.value;
    assert RowSound(rows[i]);
    var inv := ActivatedRow(rows[i], user, now);
    ReplacedFollows(rows, i, inv);
    FollowingKeepsOneOpen(rows, rows[i := inv]);
    LogStep(s.log, rows, i, inv, Entry(s.db, i, user, now));
  }

  lemma LogStep(log: seq<Activation>, rows: seq<Invitation>, i: nat, inv: Invitation, a: Activation)
    requires LogSound(log, rows) && i < |rows| && rows[i].status != ACTIVATED
    requires a.invitation == i && Proper(a, rows[i := inv])
    ensures LogSound(log + [a], rows[i := inv])
  {
    var after := rows[i := inv];
    hide NormalizeEmail;
    forall k | 0 <= k < |log| ensures Proper(log[k], after) && log[k].invitation != i {
      assert Proper(log[k], rows);
    }
    hide Proper;
    forall j | 0 <= j < |rows| && after[j].status == ACTIVATED ensures Logged(log + [a], j) {
      if j == i {
        assert a in log + [a];
      } else {
        assert Logged(log, j);
        var b :| b in log && b.invitation == j;
        assert b in log + [a];
      }
    }
  }

  lemma StepKeeps(s: State, op: Op)
    requires Sound(s)
    ensures Sound(Step(s, op)) && AllFollow(s.db.invitations, Step(s, op).db.invitations)
  {
    hide Sound, DoInvite, DoAccept, DoActivate, AllFollow;
    match op
    case Invite(now, email, admitted, token, newUser, committed) =>
      InviteKeeps(s, now, email, admitted, token, newUser, committed);
    case Accept(now, given) => AcceptKeeps(s, now, given);
    case Activate(now, user, token, seeded) => ActivateKeeps(s, now, user, token, seeded);
    case Elsewhere(users, memberships, deleted) => ElsewhereKeeps(s, users, memberships, deleted);
  }

  lemma ElsewhereKeeps(s: State, users: seq<User>, memberships: map<Seat, MembershipStatus>, deleted: set<UserId>)
    requires Sound(s)
    ensures var after := Step(s, Elsewhere(users, memberships, deleted));
            Sound(after) && AllFollow(s.db.invitations, after.db.invitations)
  {
    ForgetTame(s.db.invitations, deleted);
    hide LogSound, OneOpen, TokensDistinct, RowsSound, Forget;
    TameKeeps(s, Forget(s.db.invitations, deleted));
  }

  /**
   * Every run, whatever else happens to users and memberships: at most one open invitation per address and
   * organisation, each invitation activated at most once, before its expiry and from its own address, and no
   * invitation is ever stored as EXPIRED.
   */
  lemma {:induction false} RunKeepsSound(s: State, ops: seq<Op>)
    requires Sound(s)
    ensures Sound(Run(s, ops))
  {
    if ops != [] {
      hide Sound, Step;
      RunKeepsSound(s, ops[..|ops| - 1]);
      StepKeeps(Run(s, ops[..|ops| - 1]), ops[|ops| - 1]);
    }
  }

  lemma FollowsTwice(a: seq<Invitation>, b: seq<Invitation>, c: seq<Invitation>)
    requires AllFollow(a, b) && AllFollow(b, c)
    ensures AllFollow(a, c)
  {
    forall i | 0 <= i < |a| ensures Follows(a[i], c[i]) {
      assert Follows(a[i], b[i]) && Follows(b[i], c[i]);
    }
  }

  /** Statuses only move forward; activated and revoked invitations keep their status and times for ever. */
  lemma {:induction false} RunMovesForward(s: State, ops: seq<Op>)
    requires Sound(s)
    ensures AllFollow(s.db.invitations, Run(s, ops).db.invitations)
  {
    hide Sound, Step, AllFollow;
    if ops == [] {
      NothingFollows(s.db.invitations);
    } else {
      var front := ops[..|ops| - 1];
      RunKeepsSound(s, front);
      RunMovesForward(s, front);
      StepKeeps(Run(s, front), ops[|ops| - 1]);
      FollowsTwice(s.db.invitations, Run(s, front).db.invitations, Run(s, ops).db.invitations);
    }
  }

  /** An invitation that was used or revoked never lets anyone in again. */
  lemma SpentTokenRefused(s: State, ops: seq<Op>, i: nat, now: int, user: UserId, seeded: bool)
    requires Sound(s) && i < |s.db.invitations| && !Open(s.db.invitations[i])
    ensures var db := Run(s, ops).db;
            DoActivate(db, now, user, s.db.invitations[i].token, seeded).result.Err?
            && DoAccept(db, now, Some(s.db.invitations[i].token)).result.Err?
  {
    var db := Run(s, ops).db;
    RunMovesForward(s, ops);
    RunKeepsSound(s, ops);
    assert Follows(s.db.invitations[i], db.invitations[i]) && RowSound(s.db.invitations[i]);
    hide Run, Follows, RowSound, NormalizeEmail, FindUser, LogSound, OneOpen;
    var found := FindByToken(db.invitations, s.db.invitations[i].token);
    assert found == Some(i);
  }

  // ---- One invitation ----------------------------------------------------------------

  /**
   * Inviting someone who is already an active member is refused, and no invitation takes an active membership away.
   * It grants nothing either: only the invited user's seat is touched, and it becomes INVITED.
   */
  lemma InviteNeverDemotes(db: Tables, now: int, email: Email, admitted: Option<OrgId>, token: Token, newUser: UserId,
                           committed: bool)
    requires forall u | u in db.memberships :: exists k :: 0 <= k < |db.users| && db.users[k].id == u.user
    ensures var o := DoInvite(db, now, email, admitted, token, newUser, committed);
            && (forall m | m in db.memberships && db.memberships[m] == ACTIVE ::
                  m in o.db.memberships && o.db.memberships[m] == ACTIVE)
            && (forall m | m in o.db.memberships && o.db.memberships[m] == ACTIVE ::
                  m in db.memberships && db.memberships[m] == ACTIVE)
            && (o.result.Ok? ==>
                  o.db.memberships
                  == db.memberships[Seat(o.db.invitations[o.result.value].userId.value, admitted.value) := INVITED])
            && (o.result.Err? ==> o.db.memberships == db.memberships && o.db.users == db.users)
  {
    hide NormalizeEmail, SameIgnoringCase, FindByToken, FindUser, FindByEmail;
    var o := DoInvite(db, now, email, admitted, token, newUser, committed);
    if o.result.Ok? && FindByEmail(db.users, NormalizeEmail(email)).None? {
      assert FindUser(db.users, newUser).None?;
      assert Seat(newUser, admitted.value) !in db.memberships;
    }
  }

  /** Whoever is invited can join with the token until it expires, having accepted it first or not; and not after. */
  lemma InvitedCanJoin(s: State, now: int, email: Email, org: OrgId, token: Token, newUser: UserId, acceptAt: int,
                       joinAt: int)
    requires Sound(s) && DoInvite(s.db, now, email, Some(org), token, newUser, true).result.Ok?
    requires forall k, l | 0 <= k < l < |s.db.users| :: s.db.users[k].id != s.db.users[l].id
    ensures var invited := DoInvite(s.db, now, email, Some(org), token, newUser, true).db;
            var user := invited.invitations[|s.db.invitations|].userId;
            var accepted := DoAccept(invited, acceptAt, Some(token)).db;
            && user.Some?
            && (DoActivate(invited, joinAt, user.value, token, true).result.Ok? <==> joinAt < now + INVITATION_TTL_MS)
            && (DoActivate(accepted, joinAt, user.value, token, true).result.Ok? <==> joinAt < now + INVITATION_TTL_MS)
  {
    var o := DoInvite(s.db, now, email, Some(org), token, newUser, true);
    var n, i := NormalizeEmail(email), |s.db.invitations|;
    var user := GetOr(FindByEmail(s.db.users, n), newUser);
    TokensUntouched(s.db.invitations, n, org, token);
    InvitedUserFound(s.db.users, email, newUser);
    hide FindByEmail, FindUser, NormalizeEmail, SameIgnoringCase, Sound;
    assert o.db.invitations[i] == NewInvitation(n, user, org, token, now);
    MatchNormalizes(n, email);
    assert FindByToken(o.db.invitations, token) == Some(i);
    hide FindByToken, DoInvite, DoActivate, DoAccept;
    ActivateIff(o.db, joinAt, user, token, true);
    AcceptedStaysJoinable(o.db, i, token, user, acceptAt, joinAt);
  }

  lemma AcceptedStaysJoinable(db: Tables, i: nat, token: Token, user: UserId, acceptAt: int, joinAt: int)
    requires i < |db.invitations| && FindByToken(db.invitations, token) == Some(i) && Open(db.invitations[i])
    ensures DoActivate(DoAccept(db, acceptAt, Some(token)).db, joinAt, user, token, true).result.Ok?
            <==> DoActivate(db, joinAt, user, token, true).result.Ok?
  {
    var accepted := DoAccept(db, acceptAt, Some(token)).db;
    assert accepted.invitations == db.invitations[i := accepted.invitations[i]];
    SameTokensFound(db.invitations, accepted.invitations, token);
    hide FindByToken, FindUser, NormalizeEmail;
  }

  lemma {:induction false} SameTokensFound(a: seq<Invitation>, b: seq<Invitation>, token: Token)
    requires |a| == |b| && forall i | 0 <= i < |a| :: a[i].token == b[i].token
    ensures FindByToken(a, token) == FindByToken(b, token)
  {
    if a != [] {
      SameTokensFound(a[..|a| - 1], b[..|b| - 1], token);
    }
  }

  /** The user an invitation names is found again by id, under an address that normalises to the invitation's. */
  lemma InvitedUserFound(users: seq<User>, email: Email, newUser: UserId)
    requires forall k, l | 0 <= k < l < |users| :: users[k].id != users[l].id
    ensures var existing := FindByEmail(users, NormalizeEmail(email));
            var after := if existing.Some? then users else users + [User(newUser, Some(NormalizeEmail(email)))];
            existing.Some? || FindUser(users, newUser).None? ==>
              && FindUser(after, GetOr(existing, newUser)).Some?
              && FindUser(after, GetOr(existing, newUser)).value.email.Some?
              && NormalizeEmail(FindUser(after, GetOr(existing, newUser)).value.email.value) == NormalizeEmail(email)
  {
    var n := NormalizeEmail(email);
    var existing := FindByEmail(users, n);
    hide FindByEmail, FindUser, NormalizeEmail, SameIgnoringCase;
    if existing.Some? {
      var k :| 0 <= k < |users| && users[k].id == existing.value && HasEmail(users[k], n);
      MatchNormalizes(users[k].email.value, email);
      var found := FindUser(users, existing.value);
      assert found.Some? by { assert users[k].id == existing.value; }
      var j :| 0 <= j < |users| && users[j] == found.value;
      assert j == k;
    } else if FindUser(users, newUser).None? {
      var after := users + [User(newUser, Some(n))];
      assert after[|users|].id == newUser;
      var found := FindUser(after, newUser);
      var j :| 0 <= j < |after| && after[j] == found.value;
      assert j == |users|;
      MatchNormalizes(n, email);
    }
  }

  /** The address belongs to a user who is an active member of the organisation. */
  predicate AlreadyActive(db: Tables, email: Email, org: OrgId) {
    var existing := FindByEmail(db.users, NormalizeEmail(email));
    && existing.Some?
    && Seat(existing.value, org) in db.memberships
    && db.memberships[Seat(existing.value, org)] == ACTIVE
  }

  /**
   * Unless the address is an active member's, its open invitations in the organisation, and no others, are revoked for
   * good, even when the rest of the invite fails.
   */
  lemma ReinviteSupersedes(s: State, now: int, email: Email, org: OrgId, token: Token, newUser: UserId, committed: bool)
    requires Sound(s)
    ensures var o := DoInvite(s.db, now, email, Some(org), token, newUser, committed);
            !AlreadyActive(s.db, email, org) ==>
              forall i | 0 <= i < |s.db.invitations| ::
                var was := s.db.invitations[i];
                o.db.invitations[i] == if Open(was) && was.email == NormalizeEmail(email) && was.org == org
                                       then was.(status := REVOKED) else was
  {
    forall i | 0 <= i < |s.db.invitations|
      ensures SameIgnoringCase(s.db.invitations[i].email, NormalizeEmail(email))
              <==> s.db.invitations[i].email == NormalizeEmail(email)
    {
      assert RowSound(s.db.invitations[i]);
      MatchNormalizes(s.db.invitations[i].email, email);
    }
    hide FindByEmail, FindUser, FindByToken, NormalizeEmail, SameIgnoringCase;
  }

  /** An invitation to the address in the organisation is pending or accepted. */
  ghost predicate OpenFor(rows: seq<Invitation>, email: Email, org: OrgId) {
    exists i :: 0 <= i < |rows| && IsOpenFor(rows[i], email, org)
  }

  predicate IsOpenFor(inv: Invitation, email: Email, org: OrgId) {
    Open(inv) && inv.email == NormalizeEmail(email) && inv.org == org
  }

  /** What an invite answers, by what the caller can look up beforehand. */
  lemma InviteIff(db: Tables, now: int, email: Email, org: OrgId, token: Token, newUser: UserId, committed: bool)
    ensures var r := DoInvite(db, now, email, Some(org), token, newUser, committed).result;
            && (r == Err(Conflict) <==> AlreadyActive(db, email, org))
            && (r.Ok? <==>
                  && !AlreadyActive(db, email, org) && committed && FindByToken(db.invitations, token).None?
                  && (FindByEmail(db.users, NormalizeEmail(email)).Some? || FindUser(db.users, newUser).None?))
  {
    hide FindByEmail, FindUser, FindByToken, NormalizeEmail, RevokeOpen;
  }

  /**
   * An invite that fails leaves the tables as they were if and only if it stopped at the check for an active member,
   * or there was no open invitation to revoke.
   */
  lemma FailedInviteHarmlessIff(s: State, now: int, email: Email, org: OrgId, token: Token, newUser: UserId,
                                committed: bool)
    requires Sound(s) && DoInvite(s.db, now, email, Some(org), token, newUser, committed).result.Err?
    ensures DoInvite(s.db, now, email, Some(org), token, newUser, committed).db == s.db
            <==> AlreadyActive(s.db, email, org) || !OpenFor(s.db.invitations, email, org)
  {
    var o := DoInvite(s.db, now, email, Some(org), token, newUser, committed);
    InviteIff(s.db, now, email, org, token, newUser, committed);
    ReinviteSupersedes(s, now, email, org, token, newUser, committed);
    hide FindByEmail, FindUser, FindByToken, NormalizeEmail, SameIgnoringCase, Sound, AlreadyActive;
    if !AlreadyActive(s.db, email, org) {
      if OpenFor(s.db.invitations, email, org) {
        var i :| 0 <= i < |s.db.invitations| && IsOpenFor(s.db.invitations[i], email, org);
        assert o.db.invitations[i].status == REVOKED;
      } else {
        forall i | 0 <= i < |s.db.invitations| ensures o.db.invitations[i] == s.db.invitations[i] {
          assert !IsOpenFor(s.db.invitations[i], email, org);
        }
        assert o.db.invitations == s.db.invitations;
      }
    }
  }

  /** However it ends, an invite that got past the check for an active member and failed leaves none open. */
  lemma FailedInviteLeavesNoneOpen(s: State, now: int, email: Email, org: OrgId, token: Token, newUser: UserId,
                                   committed: bool)
    requires Sound(s) && !AlreadyActive(s.db, email, org)
    requires DoInvite(s.db, now, email, Some(org), token, newUser, committed).result.Err?
    ensures !OpenFor(DoInvite(s.db, now, email, Some(org), token, newUser, committed).db.invitations, email, org)
  {
    ReinviteSupersedes(s, now, email, org, token, newUser, committed);
    hide FindByEmail, FindUser, FindByToken, NormalizeEmail, SameIgnoringCase, Sound, AlreadyActive;
  }

  lemma FirstInvite(now: int, email: Email, org: OrgId, token: Token, user: UserId)
    ensures DoInvite(Tables([], [], map[]), now, email, Some(org), token, user, true).db
            == Tables([NewInvitation(NormalizeEmail(email), user, org, token, now)],
                      [User(user, Some(NormalizeEmail(email)))], map[Seat(user, org) := INVITED])
  {
    hide NormalizeEmail, SameIgnoringCase;
  }

  /** A run that shows it: invite somebody, then invite them again without committing; no invitation is left open. */
  lemma FailedReinviteLosesInvitation(now: int, later: int, email: Email, org: OrgId, token: Token, other: Token,
                                      user: UserId, another: UserId)
    ensures var first := Invite(now, email, Some(org), token, user, true);
            var second := Invite(later, email, Some(org), other, another, false);
            var start := State(Tables([], [], map[]), []);
            && Sound(start)
            && OpenFor(Run(start, [first]).db.invitations, email, org)
            && Apply(Run(start, [first]).db, second).result == Err(TransactionFailed)
            && !OpenFor(Run(start, [first, second]).db.invitations, email, org)
  {
    var first := Invite(now, email, Some(org), token, user, true);
    var second := Invite(later, email, Some(org), other, another, false);
    var start := State(Tables([], [], map[]), []);
    var one := Step(start, first);
    assert Sound(start);
    RunOne(start, first);
    RunTwo(start, first, second);
    FirstInvite(now, email, org, token, user);
    StepKeeps(start, first);
    hide NormalizeEmail, SameIgnoringCase, Sound, Run, FindByEmail, FindUser, FindByToken, RevokeOpen;
    assert IsOpenFor(one.db.invitations[0], email, org);
    assert !AlreadyActive(one.db, email, org);
    hide AlreadyActive;
    InviteIff(one.db, later, email, org, other, another, false);
    FailedInviteLeavesNoneOpen(one, later, email, org, other, another, false);
    hide OpenFor, IsOpenFor;
  }

  lemma RunOne(s: State, op: Op)
    ensures Run(s, [op]) == Step(s, op)
  {
    assert [op][..0] == [];
    assert Run(s, []) == s;
  }

  lemma RunTwo(s: State, a: Op, b: Op)
    ensures Run(s, [a, b]) == Step(Step(s, a), b)
  {
    RunOne(s, a);
    assert [a, b][..1] == [a];
  }
}
