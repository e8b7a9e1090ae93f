/** The users table and the two statements the repository runs on it:
    `Save` (an INSERT) and `VerifyEmail` (an UPDATE … WHERE email = $1).

    The table is a sequence of rows in insertion order. Whether the
    database executes a statement, and with which error it refuses one, is
    a parameter (`Exec`); a refused statement changes nothing. */
module UserRepository {
  import opened Errors

  /** A row of the users table. `createdAt` is an instant on the
      service's clock. */
  datatype User = User(id: string, nickname: string, email: string, verified: bool, createdAt: int)

  type Table = seq<User>

  /** How the database answers one statement. */
  datatype Exec = Done | Failed(cause: Error)

  /** The table after a statement, and the error returned to the caller. */
  datatype Written = Written(table: Table, err: Option<Error>)

  /** Row `r` holds what `u` supplied: every column but the id, which the
      INSERT leaves to the database. */
  predicate StoresFieldsOf(r: User, u: User)
  {
    r.nickname == u.nickname && r.email == u.email && r.verified == u.verified && r.createdAt == u.createdAt
  }

  /** `Save`: INSERT INTO users (nickname, email, verified, created_at).
      `newId` is the id the database assigns. Nothing is checked here: an
      address already present is inserted again. */
  function Save(t: Table, u: User, newId: string, exec: Exec): (r: Written)
    ensures exec.Failed? ==> r.table == t && r.err == Some(exec.cause)
    ensures exec.Done? ==> && r.err.None?
                           && |r.table| == |t| + 1
                           && r.table[..|t|] == t
                           && StoresFieldsOf(r.table[|t|], u)
                           && r.table[|t|].id == newId
  {
    match exec
    case Failed(e) => Written(t, Some(e))
    case Done => Written(t + [u.(id := newId)], None)
  }

  /** The rows the UPDATE touches. */
  predicate Matches(u: User, email: string)
  {
    u.email == email
  }

  /** SET verified = true on every row whose email equals `email`. */
  function MarkVerified(t: Table, email: string): (r: Table)
    ensures |r| == |t|
    ensures forall i :: 0 <= i < |t| && Matches(t[i], email) ==> r[i] == t[i].(verified := true)
    ensures forall i :: 0 <= i < |t| && !Matches(t[i], email) ==> r[i] == t[i]
    decreases |t|
  {
    if |t| == 0 then []
    else
      var head := if Matches(t[0], email) then t[0].(verified := true) else t[0];
      [head] + MarkVerified(t[1..], email)
  }

  /** `VerifyEmail`: runs the UPDATE and returns its error, if any. The
      number of rows affected is not looked at, so an address with no row
      succeeds and changes nothing. */
  function VerifyEmail(t: Table, email: string, exec: Exec): (r: Written)
    ensures exec.Failed? ==> r.table == t && r.err == Some(exec.cause)
    ensures exec.Done? ==> r.err.None? && r.table == MarkVerified(t, email)
  {
    match exec
    case Failed(e) => Written(t, Some(e))
    case Done => Written(MarkVerified(t, email), None)
  }

  /** The number of rows with this address. */
  function CountWithEmail(t: Table, email: string): nat
    decreases |t|
  {
    if |t| == 0 then 0
    else (if Matches(t[|t| - 1], email) then 1 else 0) + CountWithEmail(t[..|t| - 1], email)
  }

  /** No duplicate check: a successful `Save` of an address that already has
      rows adds one more row with that address. */
  lemma SaveAddsDuplicate(t: Table, u: User, newId: string)
    ensures CountWithEmail(Save(t, u, newId, Done).table, u.email) == CountWithEmail(t, u.email) + 1
  {
  }

  /** Marking twice is marking once. */
  lemma MarkVerifiedIdempotent(t: Table, email: string)
    ensures MarkVerified(MarkVerified(t, email), email) == MarkVerified(t, email)
  {
  }

  /** An address no row carries leaves the table as it was. */
  lemma MarkVerifiedNoMatch(t: Table, email: string)
    requires forall i :: 0 <= i < |t| ==> !Matches(t[i], email)
    ensures MarkVerified(t, email) == t
  {
  }

  /** The flag only moves from false to true, and every other column of
      every row, and every row of another address, stays as it was. */
  lemma VerifiedOnlyRises(t: Table, email: string, i: int)
    requires 0 <= i < |t|
    ensures t[i].verified ==> MarkVerified(t, email)[i].verified
    ensures MarkVerified(t, email)[i].(verified := t[i].verified) == t[i]
    ensures MarkVerified(t, email)[i].verified <==> t[i].verified || Matches(t[i], email)
  {
  }

  /** Marking commutes across addresses: the order of two verifications
      does not matter. */
  lemma MarkVerifiedCommutes(t: Table, e1: string, e2: string)
    ensures MarkVerified(MarkVerified(t, e1), e2) == MarkVerified(MarkVerified(t, e2), e1)
  {
  }

  /** Neither statement removes a row: every row present before is present
      after, at the same position, with the same id, nickname, address and
      creation time. */
  lemma NoRowRemoved(t: Table, u: User, newId: string, email: string, exec: Exec, i: int)
    requires 0 <= i < |t|
    ensures var s := Save(t, u, newId, exec).table;
            i < |s| && s[i] == t[i]
    ensures var v := VerifyEmail(t, email, exec).table;
            i < |v| && v[i].id == t[i].id && v[i].nickname == t[i].nickname
            && v[i].email == t[i].email && v[i].createdAt == t[i].createdAt
  {
  }
}
