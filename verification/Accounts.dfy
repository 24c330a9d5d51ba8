/**
 * REGISTER, LOGIN and RESET_PASSWORD: how one command moves through its
 * database steps, and what it means for the map from email to password hash.
 */
module Accounts {
  import opened Wrappers
  import opened Users

  // ---------- password hashes ----------

  /** A SHA-256 digest; the hash function itself is a parameter. */
  type Digest = d: seq<Byte> | |d| == 32 witness seq(32, i => 0)

  type Byte = n: nat | n < 0x100

  function HexDigit(n: nat): char
    requires n < 16
  {
    if n < 10 then ('0' as int + n) as char else ('a' as int + n - 10) as char
  }

  /** `std::hex` with `setw(2)` and `setfill('0')`. */
  function HexPair(n: Byte): (s: string)
    ensures |s| == 2
  {
    [HexDigit(n / 16), HexDigit(n % 16)]
  }

  function Hex(d: seq<Byte>): string {
    if d == [] then "" else Hex(d[..|d| - 1]) + HexPair(d[|d| - 1])
  }

  /** Byte by byte, the digit of the high half comes before that of the low half. */
  lemma {:induction false} HexDigits(d: seq<Byte>, i: nat)
    requires i < |d|
    ensures |Hex(d)| == 2 * |d|
    ensures Hex(d)[2 * i] == "0123456789abcdef"[d[i] / 16]
    ensures Hex(d)[2 * i + 1] == "0123456789abcdef"[d[i] % 16]
    decreases |d|
  {
    HexLength(d);
    HexLength(d[..|d| - 1]);
    if i < |d| - 1 {
      HexDigits(d[..|d| - 1], i);
    } else {
      HexDigitIs(d[i] / 16);
      HexDigitIs(d[i] % 16);
    }
  }

  lemma HexDigitIs(n: nat)
    requires n < 16
    ensures HexDigit(n) == "0123456789abcdef"[n]
  {}

  method HashToHex(hash: Digest) returns (s: string)
    ensures s == Hex(hash)
    ensures |s| == 64
    ensures forall i | 0 <= i < 32 ::
              s[2 * i] == "0123456789abcdef"[hash[i] / 16] && s[2 * i + 1] == "0123456789abcdef"[hash[i] % 16]
  {
    s := "";
    for i := 0 to 32
      invariant s == Hex(hash[..i])
    {
      assert hash[..i + 1][..i] == hash[..i];
      s := s + HexPair(hash[i]);
    }
    assert hash[..32] == hash;
    forall i | 0 <= i < 32
      ensures |s| == 64
      ensures s[2 * i] == "0123456789abcdef"[hash[i] / 16] && s[2 * i + 1] == "0123456789abcdef"[hash[i] % 16]
    {
      HexDigits(hash, i);
    }
    HexLength(hash);
  }

  lemma {:induction false} HexLength(d: seq<Byte>)
    ensures |Hex(d)| == 2 * |d|
  {
    if d != [] { HexLength(d[..|d| - 1]); }
  }

  lemma HexPairInjective(m: Byte, n: Byte)
    requires HexPair(m) == HexPair(n)
    ensures m == n
  {
    assert HexPair(m)[0] as int == HexPair(n)[0] as int && HexPair(m)[1] as int == HexPair(n)[1] as int;
  }

  /** Different digests print differently. */
  lemma {:induction false} HexInjective(a: seq<Byte>, b: seq<Byte>)
    requires Hex(a) == Hex(b)
    ensures a == b
  {
    HexLength(a);
    HexLength(b);
    if a != [] {
      var p, q := a[..|a| - 1], b[..|b| - 1];
      HexLength(p);
      HexLength(q);
      var h := Hex(a);
      assert h[..|h| - 2] == Hex(p) && h[..|h| - 2] == Hex(q);
      assert h[|h| - 2..] == HexPair(a[|a| - 1]) && h[|h| - 2..] == HexPair(b[|b| - 1]);
      HexInjective(p, q);
      HexPairInjective(a[|a| - 1], b[|b| - 1]);
      assert a == p + [a[|a| - 1]] && b == q + [b[|b| - 1]];
    }
  }

  // ---------- the database steps of one command ----------

  /** A command whose tokens are present; `hash` is the hex digest of its password. */
  datatype Command =
    | Register(email: string, hash: string)
    | Login(email: string, hash: string)
    | Reset(email: string, hash: string)

  /** Where a command stands: between two steps it holds only what the lookup gave it. */
  datatype Pc =
    | Ready
    | Inserting          // the email was not found
    | Updating(id: int)  // the id the email was found under
    | Done(reply: int)

  /** One database step of a command; a failing lookup finds nothing. */
  function DbStep(t: Table, c: Command, pc: Pc, fails: bool): (Table, Pc) {
    match pc
    case Ready =>
      (match (c, if fails then None else Find(t.rows, c.email))
       case (Register(_, _), Some(_)) => (t, Done(409))
       case (Register(_, _), None) => (t, Inserting)
       case (_, None) => (t, Done(404))
       case (Login(_, hash), Some(u)) => (t, Done(if u.passwordHash == hash then 200 else 401))
       case (Reset(_, _), Some(u)) => (t, Updating(u.id)))
    case Inserting =>
      (match (if fails then None else Insert(t, c.email, c.hash))
       case None => (t, Done(500))
       case Some(u) => (u, Done(200)))
    case Updating(id) =>
      if fails then (t, Done(500)) else (t.(rows := SetHash(t.rows, id, c.hash)), Done(200))
    case Done(_) => (t, pc)
  }

  /** Whether the database fails a command's lookup and its write. */
  datatype Faults = Faults(lookup: bool, write: bool)

  /** A command that runs alone: its one or two steps in a row. */
  function Solo(t: Table, c: Command, faults: Faults): (r: (Table, int))
  {
    var (t1, pc1) := DbStep(t, c, Ready, faults.lookup);
    match pc1
    case Done(reply) => (t1, reply)
    case _ => var (t2, pc2) := DbStep(t1, c, pc1, faults.write); (t2, if pc2.Done? then pc2.reply else 500)
  }

  // ---------- the map the commands work on ----------

  type AccountMap = map<string, string>

  /**
   * The replies a command may give to the map `m`.  Without a failure every
   * command has one reply, except that a REGISTER of a taken email may say 500
   * (the insert hit the constraint) instead of 409 (the lookup found it).
   */
  predicate Legal(m: AccountMap, c: Command, fails: bool, reply: int) {
    match c
    case Register(email, _) =>
      if email in m then reply == 500 || (reply == 409 && !fails)
      else reply == if fails then 500 else 200
    case Login(email, hash) =>
      if fails || email !in m then reply == 404
      else reply == if m[email] == hash then 200 else 401
    case Reset(email, _) =>
      if email !in m then reply == 404
      else if fails then reply == 404 || reply == 500
      else reply == 200
  }

  /** A successful REGISTER or RESET_PASSWORD sets the hash of its email. */
  function Effect(m: AccountMap, c: Command, reply: int): AccountMap {
    if reply == 200 && !c.Login? then m[c.email := c.hash] else m
  }

  /**
   * A lookup, an insert and an update: a step that finishes a command is an
   * atomic operation on the map; any other leaves the table alone.
   */
  ghost predicate Refines(t: Table, c: Command, pc: Pc, fails: bool) {
    var (t', pc') := DbStep(t, c, pc, fails);
    && Valid(t')
    && (if pc'.Done? then
          && Legal(Users.Accounts(t.rows), c, fails, pc'.reply)
          && Users.Accounts(t'.rows) == Effect(Users.Accounts(t.rows), c, pc'.reply)
        else t' == t)
    && (pc'.Updating? ==> c.Reset? && Names(t'.rows, pc'.id, c.email))
    && (pc'.Inserting? ==> c.Register?)
  }

  lemma LookupRefines(t: Table, c: Command, fails: bool)
    requires Valid(t)
    ensures Refines(t, c, Ready, fails)
  {
    hide Valid, Names, Find, Users.Accounts;
    AccountsFind(t.rows, c.email);
    if Find(t.rows, c.email).Some? { FoundIsNamed(t.rows, c.email); }
  }

  lemma InsertRefines(t: Table, c: Command, fails: bool)
    requires Valid(t) && c.Register?
    ensures Refines(t, c, Inserting, fails)
  {
    hide Valid, Names, Find, Insert, Users.Accounts;
    AccountsFind(t.rows, c.email);
    if Insert(t, c.email, c.hash).Some? { InsertAccounts(t, c.email, c.hash); }
    InsertOnce(t, c);
  }

  lemma UpdateRefines(t: Table, c: Command, id: int, fails: bool)
    requires Valid(t) && c.Reset? && Names(t.rows, id, c.email)
    ensures Refines(t, c, Updating(id), fails)
  {
    hide Valid, Names, Find, SetHash, Users.Accounts;
    NamesFind(t, id, c.email);
    AccountsFind(t.rows, c.email);
    SetHashAccounts(t, id, c.email, c.hash);
  }

  lemma StepRefines(t: Table, c: Command, pc: Pc, fails: bool)
    requires Valid(t) && !pc.Done? && (pc.Updating? ==> c.Reset? && Names(t.rows, pc.id, c.email))
    requires pc.Inserting? ==> c.Register?
    ensures Refines(t, c, pc, fails)
  {
    hide Refines;
    match pc
    case Ready => LookupRefines(t, c, fails);
    case Inserting => InsertRefines(t, c, fails);
    case Updating(id) => UpdateRefines(t, c, id, fails);
  }

  lemma FoundIsNamed(rows: seq<User>, email: string)
    requires Find(rows, email).Some?
    ensures Find(rows, email).value.email == email && Names(rows, Find(rows, email).value.id, email)
  {
    var i :| 0 <= i < |rows| && rows[i] == Find(rows, email).value;
  }

  lemma InsertOnce(t: Table, c: Command)
    ensures Find(t.rows, c.email).None? <==> Insert(t, c.email, c.hash).Some?
  {}

  /**
   * A command that runs alone acts on the map as its reply says; without
   * failures the reply is the one the map gives, never 500.
   */
  lemma SoloRefines(t: Table, c: Command, faults: Faults)
    requires Valid(t)
    ensures var (t', reply) := Solo(t, c, faults);
            && Valid(t') && Users.Accounts(t'.rows) == Effect(Users.Accounts(t.rows), c, reply)
            && (!faults.lookup && !faults.write ==> Legal(Users.Accounts(t.rows), c, false, reply) && reply != 500)
            && (c.Login? && !faults.lookup ==> Legal(Users.Accounts(t.rows), c, false, reply))
  {
    hide Valid, Names, Find, Insert, SetHash, Users.Accounts;
    StepRefines(t, c, Ready, faults.lookup);
    AccountsFind(t.rows, c.email);
    InsertOnce(t, c);
    var (t1, pc1) := DbStep(t, c, Ready, faults.lookup);
    if !pc1.Done? {
      StepRefines(t1, c, pc1, faults.write);
    }
  }
}
