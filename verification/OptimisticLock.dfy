/**
 Any number of clients loading, changing and conditionally writing one user row. A write succeeds
 only if the row still carries the version that was loaded. What the clients do to the user is a
 parameter: the theorem holds for any operations that leave the version alone.
 */
module OptimisticLock {
  import opened Basics
  import opened User

  // ----- the repository -----

  datatype UpdateResult = Updated(user: User) | ConcurrentModification | UsernameAlreadyExists | EmailAlreadyExists

  /** The row a write leaves, or nothing when the row no longer carries the version that was loaded. */
  function Conditional(row: UserRow, u: User, encrypt: (string, int) -> seq<byte>, nonce: int): Option<UserRow> {
    if row.version == u.version then Some(UserToRow(u, u.version + 1, encrypt, nonce)) else None
  }

  /** The unique constraints of the table, as seen by one user's write. */
  predicate UsernameTaken(rows: map<int, UserRow>, u: User) {
    exists id :: id in rows && id != u.id && rows[id].username == u.username
  }

  predicate EmailTaken(rows: map<int, UserRow>, u: User) {
    u.email.Some? && exists id :: id in rows && id != u.id && rows[id].email == u.email
  }

  /** What the unique constraints keep: every row under its own id, and no name or address twice. */
  ghost predicate UniqueRows(rows: map<int, UserRow>) {
    && (forall id :: id in rows ==> rows[id].id == id)
    && (forall i, j :: i in rows && j in rows && rows[i].username == rows[j].username ==> i == j)
    && (forall i, j :: i in rows && j in rows && rows[i].email.Some? && rows[i].email == rows[j].email ==> i == j)
  }

  /** The write leaves the user's name and address alone. */
  predicate KeepsIdentity(rows: map<int, UserRow>, u: User) {
    u.id in rows && rows[u.id].username == u.username && rows[u.id].email == u.email
  }

  class UserTable {
    var rows: map<int, UserRow>

    constructor (rows: map<int, UserRow>)
      ensures this.rows == rows
    {
      this.rows := rows;
    }

    /** What a load gives. */
    function Stored(id: int, decrypt: seq<byte> -> string): Option<User>
      reads this
    {
      if id in rows then RowToUser(rows[id], decrypt) else None
    }

    /**
     The version-conditional write. Only a row that matches can violate a constraint, and a
     violation writes nothing. The caller's aggregate comes back in step with the row: it is what
     a load would now give.
     */
    method Update(u: User, encrypt: (string, int) -> seq<byte>, nonce: int, ghost decrypt: seq<byte> -> string) returns (r: UpdateResult)
      modifies this
      ensures r.ConcurrentModification? <==> u.id !in old(rows) || Conditional(old(rows)[u.id], u, encrypt, nonce).None?
      ensures !r.ConcurrentModification? ==> (r.Updated? <==> !UsernameTaken(old(rows), u) && !EmailTaken(old(rows), u))
      ensures r.UsernameAlreadyExists? ==> UsernameTaken(old(rows), u)
      ensures r.EmailAlreadyExists? ==> EmailTaken(old(rows), u)
      ensures r.Updated? ==> rows == old(rows)[u.id := Conditional(old(rows)[u.id], u, encrypt, nonce).value]
      ensures !r.Updated? ==> rows == old(rows)
      ensures r.Updated? ==> r.user == u.(version := u.version + 1)
      ensures r.Updated? && CipherWorks(encrypt, decrypt) ==> Stored(u.id, decrypt) == Some(r.user)
      ensures forall id :: id != u.id ==> Stored(id, decrypt) == old(Stored(id, decrypt))
      ensures UniqueRows(old(rows)) ==> UniqueRows(rows)
      ensures UniqueRows(old(rows)) && KeepsIdentity(old(rows), u) && old(rows)[u.id].version == u.version ==> r.Updated?
    {
      if u.id !in rows || rows[u.id].version != u.version {
        return ConcurrentModification;
      }
      if UsernameTaken(rows, u) {
        return UsernameAlreadyExists;
      }
      if EmailTaken(rows, u) {
        return EmailAlreadyExists;
      }
      rows := rows[u.id := UserToRow(u, u.version + 1, encrypt, nonce)];
      if CipherWorks(encrypt, decrypt) {
        RowRoundTrip(u, u.version + 1, encrypt, decrypt, nonce);
      }
      r := Updated(u.(version := u.version + 1));
    }
  }

  // ----- interleavings -----

  /** What the clients do, and the cipher the rows are stored with. */
  datatype Setting<!Op(!new)> = Setting(
    perform: (User, Op) -> Option<User>,
    encrypt: (string, int) -> seq<byte>,
    decrypt: seq<byte> -> string)
  {
    ghost predicate Works() {
      && CipherWorks(encrypt, decrypt)
      && (forall u, op :: perform(u, op).Some? ==> perform(u, op).value.version == u.version)
    }

    /** The reference: operations applied one after another, each to the result of the one before. */
    function Serial(u: User, ops: seq<Op>): Option<User> {
      if ops == [] then Some(u)
      else
        match Serial(u, ops[..|ops| - 1])
        case Some(before) => NextVersion(perform(before, ops[|ops| - 1]))
        case None => None
    }

    /** The row after a write, or nothing when it is refused: by the operation itself or by the version. */
    function Write(row: UserRow, held: User, op: Op, nonce: int): Option<UserRow> {
      match perform(held, op)
      case Some(u) => Conditional(row, u, encrypt, nonce)
      case None => None
    }
  }

  function NextVersion(u: Option<User>): Option<User> {
    match u
    case Some(v) => Some(v.(version := v.version + 1))
    case None => None
  }

  /** The row, what each client last loaded or wrote, and the operations committed so far. */
  datatype State<Op> = State(row: UserRow, clients: map<nat, User>, log: seq<Op>)

  /** `taken` says that another row already has the name or address being written. */
  datatype Action<Op> = Load(client: nat) | Write(client: nat, op: Op, nonce: int, taken: bool)

  /** A client that has written keeps a copy in step with the row, so it may write again. */
  function Step<Op(!new)>(s: State<Op>, a: Action<Op>, env: Setting<Op>): State<Op> {
    match a
    case Load(c) =>
      (match RowToUser(s.row, env.decrypt)
       case Some(u) => s.(clients := s.clients[c := u])
       case None => s)
    case Write(c, op, nonce, taken) =>
      if c !in s.clients || taken then s
      else
        match env.Write(s.row, s.clients[c], op, nonce)
        case Some(row) => State(row, s.clients[c := NextVersion(env.perform(s.clients[c], op)).value], s.log + [op])
        case None => s
  }

  function Run<Op(!new)>(s: State<Op>, acts: seq<Action<Op>>, env: Setting<Op>): State<Op> {
    if acts == [] then s else Step(Run(s, acts[..|acts| - 1], env), acts[|acts| - 1], env)
  }

  lemma {:induction false} SerialVersion<Op(!new)>(u: User, ops: seq<Op>, env: Setting<Op>)
    requires env.Works() && env.Serial(u, ops).Some?
    ensures env.Serial(u, ops).value.version == u.version + |ops|
  {
    if ops != [] {
      SerialVersion(u, ops[..|ops| - 1], env);
    }
  }

  /** A client holds what some prefix of the committed operations produced. */
  ghost predicate Snapshot<Op(!new)>(held: User, u: User, log: seq<Op>, env: Setting<Op>) {
    && 0 <= held.version - u.version <= |log|
    && env.Serial(u, log[..held.version - u.version]) == Some(held)
  }

  ghost predicate Inv<Op(!new)>(s: State<Op>, u: User, env: Setting<Op>) {
    && RowToUser(s.row, env.decrypt) == env.Serial(u, s.log)
    && env.Serial(u, s.log).Some?
    && (forall c :: c in s.clients ==> Snapshot(s.clients[c], u, s.log, env))
  }

  lemma SnapshotSurvives<Op(!new)>(held: User, u: User, log: seq<Op>, op: Op, env: Setting<Op>)
    requires Snapshot(held, u, log, env)
    ensures Snapshot(held, u, log + [op], env)
  {
    var n := held.version - u.version;
    assert (log + [op])[..n] == log[..n];
  }

  lemma CurrentSnapshot<Op(!new)>(held: User, u: User, log: seq<Op>, env: Setting<Op>)
    requires env.Works() && Snapshot(held, u, log, env) && env.Serial(u, log).Some?
    requires held.version == env.Serial(u, log).value.version
    ensures env.Serial(u, log) == Some(held)
  {
    SerialVersion(u, log, env);
    assert log[..|log|] == log;
  }

  lemma SerialAppend<Op(!new)>(u: User, log: seq<Op>, op: Op, held: User, env: Setting<Op>)
    requires env.Works() && env.Serial(u, log) == Some(held) && env.perform(held, op).Some?
    ensures env.Serial(u, log + [op]) == NextVersion(env.perform(held, op))
    ensures Snapshot(NextVersion(env.perform(held, op)).value, u, log + [op], env)
  {
    SerialVersion(u, log, env);
    assert (log + [op])[..|log|] == log;
    assert (log + [op])[..|log| + 1] == log + [op];
  }

  /** A write that goes through was computed from the row as it stands, so it is the next serial operation. */
  lemma WriteIsNext<Op(!new)>(s: State<Op>, c: nat, op: Op, nonce: int, u: User, env: Setting<Op>)
    requires env.Works() && Inv(s, u, env)
    requires c in s.clients && env.Write(s.row, s.clients[c], op, nonce).Some?
    ensures env.Serial(u, s.log + [op]) == NextVersion(env.perform(s.clients[c], op))
    ensures RowToUser(env.Write(s.row, s.clients[c], op, nonce).value, env.decrypt) == env.Serial(u, s.log + [op])
    ensures Snapshot(NextVersion(env.perform(s.clients[c], op)).value, u, s.log + [op], env)
  {
    var held := s.clients[c];
    var after := env.perform(held, op).value;
    assert Snapshot(held, u, s.log, env);
    CurrentSnapshot(held, u, s.log, env);
    SerialAppend(u, s.log, op, held, env);
    RowRoundTrip(after, after.version + 1, env.encrypt, env.decrypt, nonce);
  }

  /** A load hands out a copy of the row as it stands. */
  lemma LoadKeepsInv<Op(!new)>(s: State<Op>, c: nat, held: User, u: User, env: Setting<Op>)
    requires env.Works() && Inv(s, u, env) && RowToUser(s.row, env.decrypt) == Some(held)
    ensures Inv(s.(clients := s.clients[c := held]), u, env)
  {
    SerialVersion(u, s.log, env);
    assert s.log[..|s.log|] == s.log;
  }

  /** After a commit the writer is up to date and every other copy is as old as it was. */
  lemma CommitKeepsInv<Op(!new)>(s: State<Op>, c: nat, op: Op, row: UserRow, held: User, u: User, env: Setting<Op>)
    requires forall d :: d in s.clients ==> Snapshot(s.clients[d], u, s.log, env)
    requires Snapshot(held, u, s.log + [op], env)
    requires env.Serial(u, s.log + [op]).Some? && RowToUser(row, env.decrypt) == env.Serial(u, s.log + [op])
    ensures Inv(State(row, s.clients[c := held], s.log + [op]), u, env)
  {
    var after := State(row, s.clients[c := held], s.log + [op]);
    forall d | d in after.clients ensures Snapshot(after.clients[d], u, after.log, env) {
      if d != c {
        SnapshotSurvives(s.clients[d], u, s.log, op, env);
      }
    }
  }

  lemma StepKeepsInv<Op(!new)>(s: State<Op>, a: Action<Op>, u: User, env: Setting<Op>)
    requires env.Works() && Inv(s, u, env)
    ensures Inv(Step(s, a, env), u, env)
  {
    match a
    case Load(c) => LoadKeepsInv(s, c, RowToUser(s.row, env.decrypt).value, u, env);
    case Write(c, op, nonce, taken) =>
      if c in s.clients && !taken && env.Write(s.row, s.clients[c], op, nonce).Some? {
        WriteIsNext(s, c, op, nonce, u, env);
        CommitKeepsInv(s, c, op, env.Write(s.row, s.clients[c], op, nonce).value,
                       NextVersion(env.perform(s.clients[c], op)).value, u, env);
      }
  }

  lemma {:induction false} RunKeepsInv<Op(!new)>(s: State<Op>, acts: seq<Action<Op>>, u: User, env: Setting<Op>)
    requires env.Works() && Inv(s, u, env)
    ensures Inv(Run(s, acts, env), u, env)
  {
    if acts != [] {
      RunKeepsInv(s, acts[..|acts| - 1], u, env);
      StepKeepsInv(Run(s, acts[..|acts| - 1], env), acts[|acts| - 1], u, env);
    }
  }

  function Start<Op>(row: UserRow): State<Op> {
    State(row, map[], [])
  }

  /**
   Serialisability. Whatever the interleaving, the row reads as the committed operations applied
   one after another in commit order, and its version counts them.
   */
  lemma {:induction false} RowIsSerial<Op(!new)>(row: UserRow, u: User, acts: seq<Action<Op>>, env: Setting<Op>)
    requires env.Works() && RowToUser(row, env.decrypt) == Some(u)
    ensures var s := Run(Start(row), acts, env);
            && env.Serial(u, s.log).Some? && RowToUser(s.row, env.decrypt) == env.Serial(u, s.log)
            && s.row.version == row.version + |s.log|
  {
    RunKeepsInv(Start(row), acts, u, env);
    SerialVersion(u, Run(Start(row), acts, env).log, env);
  }

  /**
   No write is refused without cause: right after loading, a client's write goes through whenever
   the operation itself does and no constraint is violated.
   */
  lemma FreshWriteSucceeds<Op(!new)>(s: State<Op>, c: nat, op: Op, nonce: int, u: User, env: Setting<Op>)
    requires env.Works() && Inv(s, u, env)
    ensures var current := RowToUser(s.row, env.decrypt).value;
            var after := Step(Step(s, Load(c), env), Write(c, op, nonce, false), env);
            if env.perform(current, op).Some? then after.log == s.log + [op] else after.row == s.row && after.log == s.log
  {
  }

  lemma {:induction false} SerialPrefix<Op(!new)>(u: User, ops: seq<Op>, n: nat, env: Setting<Op>)
    requires env.Serial(u, ops).Some? && n <= |ops|
    ensures env.Serial(u, ops[..n]).Some?
  {
    if n == |ops| {
      assert ops[..n] == ops;
    } else {
      SerialPrefix(u, ops[..|ops| - 1], n, env);
      assert ops[..|ops| - 1][..n] == ops[..n];
    }
  }
}
