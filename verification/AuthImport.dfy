/**
  The restartable import of legacy users (rust/src/bin/migrate-auth-users.rs:70-142, 207-295) into the
  Better Auth tables, through `CredentialService::import`
  (rust/vendor/better-auth-rs/crates/better-auth/src/email_password.rs:95-150, 341-365).

  A user's decimal id is taken to be injective, and `<id>:credential` is its account id. Reading
  and writing the databases does not fail; one import is one transaction.
 */
module AuthImport {
  import opened Wrappers

  // ---------------------------------------------------------------------------
  // Text
  // ---------------------------------------------------------------------------

  /** Unicode White_Space, which `str::trim` removes. */
  predicate IsSpace(c: char) {
    || '\t' <= c <= '\r' || c == ' ' || c == '\U{85}' || c == '\U{A0}' || c == '\U{1680}'
    || '\U{2000}' <= c <= '\U{200A}' || c == '\U{2028}' || c == '\U{2029}' || c == '\U{202F}'
    || c == '\U{205F}' || c == '\U{3000}'
  }

  function TrimLeft(s: string): (r: string)
    ensures r == [] || !IsSpace(r[0])
  {
    if s != [] && IsSpace(s[0]) then TrimLeft(s[1..]) else s
  }

  function TrimRight(s: string): (r: string)
    ensures r <= s && (r == [] || !IsSpace(r[|r| - 1]))
  {
    if s != [] && IsSpace(s[|s| - 1]) then TrimRight(s[..|s| - 1]) else s
  }

  function LowerChar(c: char): char {
    if 'A' <= c <= 'Z' then c - 'A' + 'a' else c
  }

  function Lower(s: string): (r: string)
    ensures |r| == |s| && forall i | 0 <= i < |s| :: r[i] == LowerChar(s[i])
  {
    if s == [] then [] else [LowerChar(s[0])] + Lower(s[1..])
  }

  /** `email.trim().to_ascii_lowercase()`. */
  function Normal(email: string): string {
    Lower(TrimRight(TrimLeft(email)))
  }

  /** Normalising twice, as the importer does, is normalising once. */
  lemma NormalIsStable(email: string)
    ensures Normal(Normal(email)) == Normal(email)
  {
    var trimmed := TrimRight(TrimLeft(email));
    var n := Normal(email);
    assert trimmed != [] ==> trimmed[0] == TrimLeft(email)[0];
    assert n == [] || (!IsSpace(n[0]) && !IsSpace(n[|n| - 1]));
    assert TrimRight(TrimLeft(n)) == n;
    assert forall i | 0 <= i < |n| :: LowerChar(n[i]) == n[i];
  }

  function ByteLength(s: string): nat {
    if s == [] then 0
    else
      (if s[0] < '\U{80}' then 1 else if s[0] < '\U{800}' then 2 else if s[0] < '\U{10000}' then 3 else 4)
      + ByteLength(s[1..])
  }

  /** Where the first `c` is. */
  function IndexOf(s: string, c: char): (r: Option<nat>)
    ensures r.Some? ==> r.value < |s| && s[r.value] == c
  {
    if s == [] then None
    else if s[0] == c then Some(0)
    else match IndexOf(s[1..], c) case None => None case Some(i) => Some(i + 1)
  }

  predicate ValidEmail(email: string) {
    && 3 <= ByteLength(email) <= 320
    && match IndexOf(email, '@')
       case None => false
       case Some(i) =>
         var domain := email[i + 1..];
         i > 0 && '.' in domain && domain[0] != '.' && domain[|domain| - 1] != '.'
  }

  predicate ValidName(name: string) {
    1 <= |name| <= 200
  }

  /** `credential_display_name`: always a name that the import accepts. */
  function DisplayName(email: string): (r: string)
    ensures ValidName(r)
  {
    var local := match IndexOf(email, '@') case None => email case Some(i) => email[..i];
    var trimmed := TrimRight(TrimLeft(local));
    var name := if |trimmed| > 200 then trimmed[..200] else trimmed;
    if name == [] then "StrangerTV user" else name
  }

  predicate IsHex(c: char) {
    '0' <= c <= '9' || 'a' <= c <= 'f' || 'A' <= c <= 'F'
  }

  /** `is_legacy_hash_format`. */
  predicate LegacyHash(h: string) {
    match IndexOf(h, ':')
    case None => false
    case Some(i) =>
      var (salt, key) := (h[..i], h[i + 1..]);
      |salt| == 32 && |key| == 128 && (forall c | c in salt :: IsHex(c)) && (forall c | c in key :: IsHex(c))
  }

  // ---------------------------------------------------------------------------
  // What the tests accept
  // ---------------------------------------------------------------------------

  lemma {:induction false} IndexAt(s: string, c: char, rest: string)
    requires c !in s
    ensures IndexOf(s + ([c] + rest), c) == Some(|s|)
    ensures IndexOf(s, c) == None
  {
    if s == [] {
      assert s + ([c] + rest) == [c] + rest;
    } else {
      assert s[0] in s && (s + ([c] + rest))[1..] == s[1..] + ([c] + rest);
      IndexAt(s[1..], c, rest);
    }
  }

  lemma {:induction false} IndexIsFirst(s: string, c: char)
    ensures IndexOf(s, c).Some? ==> c !in s[..IndexOf(s, c).value]
    ensures IndexOf(s, c).None? ==> c !in s
  {
    if s != [] && s[0] != c {
      IndexIsFirst(s[1..], c);
      if IndexOf(s, c).Some? {
        assert s[..IndexOf(s, c).value] == [s[0]] + s[1..][..IndexOf(s[1..], c).value];
      }
    }
  }

  ghost predicate Hash(h: string, salt: string, key: string) {
    && h == salt + (":" + key) && |salt| == 32 && |key| == 128
    && (forall c | c in salt :: IsHex(c)) && (forall c | c in key :: IsHex(c))
  }

  /** A legacy hash is 32 hexadecimal digits, a colon and 128 more. */
  lemma LegacyHashExactly(h: string)
    ensures LegacyHash(h) <==> exists salt, key :: Hash(h, salt, key)
  {
    if LegacyHash(h) {
      var i := IndexOf(h, ':').value;
      assert h == h[..i] + (":" + h[i + 1..]);
      assert Hash(h, h[..i], h[i + 1..]);
    }
    if salt, key :| Hash(h, salt, key) {
      assert !IsHex(':');
      IndexAt(salt, ':', key);
      assert [':'] == ":";
      assert h[..32] == salt && h[33..] == key;
    }
  }

  ghost predicate Address(email: string, local: string, domain: string) {
    && email == local + ("@" + domain) && local != "" && '@' !in local
    && '.' in domain && domain[0] != '.' && domain[|domain| - 1] != '.'
  }

  /** An email has something before its first `@`, a dot inside what follows, and 3 to 320 bytes. */
  lemma ValidEmailExactly(email: string)
    ensures ValidEmail(email) <==>
              3 <= ByteLength(email) <= 320 && exists local, domain :: Address(email, local, domain)
  {
    hide ByteLength;
    if ValidEmail(email) {
      var i := IndexOf(email, '@').value;
      IndexIsFirst(email, '@');
      assert email == email[..i] + ("@" + email[i + 1..]);
      assert Address(email, email[..i], email[i + 1..]);
    }
    if local, domain :| Address(email, local, domain) {
      IndexAt(local, '@', domain);
      assert ['@'] == "@";
      assert email[|local| + 1..] == domain;
    }
  }

  /** The name is what precedes the first `@`, up to 200 characters of it, or a stock name if that is blank. */
  lemma DisplayNameExactly(local: string, domain: string)
    requires '@' !in local && (local != "" ==> !IsSpace(local[0]) && !IsSpace(local[|local| - 1]))
    ensures DisplayName(local + ("@" + domain)) ==
            if local == "" then "StrangerTV user" else if |local| <= 200 then local else local[..200]
  {
    IndexAt(local, '@', domain);
    assert ['@'] == "@";
    assert (local + ("@" + domain))[..|local|] == local;
    assert TrimLeft(local) == local && TrimRight(local) == local;
    hide IndexOf, TrimLeft, TrimRight, IsSpace;
  }

  // ---------------------------------------------------------------------------
  // The tables
  // ---------------------------------------------------------------------------

  datatype UserKey = Legacy(id: int) | Native(name: string)

  datatype User = User(email: string, name: string, verified: bool)
  datatype Account = Account(user: UserKey, accountId: string, hash: Option<string>)

  /** The users, the unique index on their email, and each user's credential account. */
  datatype Tables = Tables(users: map<UserKey, User>, byEmail: map<string, UserKey>, accounts: map<UserKey, Account>)

  /** A row of the legacy table: one that could not be read, or a user. */
  datatype SourceRow =
    | Unreadable(id: int)
    | LegacyUser(id: int, email: string, hash: string, verified: bool)

  datatype Preflight = New | AlreadyImported | Conflict | Failed

  predicate SameIdentity(t: Tables, k: UserKey, id: UserKey, email: string)
    requires k in t.users
  {
    k == id && Normal(t.users[k].email) == email
  }

  function Classify(t: Tables, row: SourceRow): Preflight
    requires row.LegacyUser? && t.byEmail.Values <= t.users.Keys
  {
    var id, email := Legacy(row.id), Normal(row.email);
    if id !in t.users && email !in t.byEmail then New
    else
      var idMatches := id in t.users && SameIdentity(t, id, id, email);
      var emailMatches := email in t.byEmail && SameIdentity(t, t.byEmail[email], id, email);
      if !idMatches || !emailMatches then Conflict
      else if id !in t.accounts then Failed
      else match t.accounts[id].hash
        case None => Failed
        case Some(h) => if h != "" then AlreadyImported else Failed
  }

  datatype ImportError = InvalidEmail | InvalidName | EmptyHash | EmailTaken | TransactionFailed

  /** `CredentialService::import`. */
  function Import(t: Tables, id: UserKey, email: string, name: string, verified: bool, hash: string)
    : (Tables, Result<(), ImportError>)
  {
    var normal := Normal(email);
    if !ValidEmail(normal) then (t, Err(InvalidEmail))
    else if !ValidName(name) then (t, Err(InvalidName))
    else if hash == "" then (t, Err(EmptyHash))
    else if normal in t.byEmail then (t, Err(EmailTaken))
    else if id in t.users || id in t.accounts then (t, Err(TransactionFailed))
    else
      (Tables(t.users[id := User(normal, name, verified)],
              t.byEmail[normal := id],
              t.accounts[id := Account(id, normal, Some(hash))]), Ok(()))
  }

  datatype Summary = Summary(
    scanned: nat, imported: nat, alreadyImported: nat, conflicts: nat, failed: nat, wouldImport: nat)

  const NOTHING := Summary(0, 0, 0, 0, 0, 0)

  /** What becomes of one row. */
  datatype Outcome = DidImport | WasImported | DidConflict | DidFail | WouldImport

  function ImportRow(t: Tables, row: SourceRow, dryRun: bool): (Tables, Outcome)
    requires t.byEmail.Values <= t.users.Keys
  {
    if row.Unreadable? then (t, DidFail)
    else
      match Classify(t, row)
      case AlreadyImported => (t, WasImported)
      case Conflict => (t, DidConflict)
      case Failed => (t, DidFail)
      case New =>
        if !LegacyHash(row.hash) then (t, DidFail)
        else if dryRun then (t, WouldImport)
        else
          var (t', r) := Import(t, Legacy(row.id), Normal(row.email), DisplayName(row.email), row.verified, row.hash);
          (t', if r.Ok? then DidImport else DidFail)
  }

  function Count(s: Summary, o: Outcome): Summary {
    var one := s.(scanned := s.scanned + 1);
    match o
    case DidImport => one.(imported := s.imported + 1)
    case WasImported => one.(alreadyImported := s.alreadyImported + 1)
    case DidConflict => one.(conflicts := s.conflicts + 1)
    case DidFail => one.(failed := s.failed + 1)
    case WouldImport => one.(wouldImport := s.wouldImport + 1)
  }

  /** The emails of the users and their index agree. */
  ghost predicate Indexed(t: Tables) {
    && (forall e | e in t.byEmail :: t.byEmail[e] in t.users && t.users[t.byEmail[e]].email == e)
    && (forall k | k in t.users :: t.users[k].email in t.byEmail && t.byEmail[t.users[k].email] == k)
  }

  lemma ImportRowIndexed(t: Tables, row: SourceRow, dryRun: bool)
    requires Indexed(t)
    ensures t.byEmail.Values <= t.users.Keys && Indexed(ImportRow(t, row, dryRun).0)
  {
    hide Normal, ValidEmail, LegacyHash, DisplayName;
  }

  function Run(t: Tables, rows: seq<SourceRow>, dryRun: bool): (r: (Tables, Summary))
    requires Indexed(t)
    ensures Indexed(r.0)
  {
    if rows == [] then (t, NOTHING)
    else
      var before := Run(t, rows[..|rows| - 1], dryRun);
      ImportRowIndexed(before.0, rows[|rows| - 1], dryRun);
      var (t', o) := ImportRow(before.0, rows[|rows| - 1], dryRun);
      (t', Count(before.1, o))
  }

  lemma RunTurn(t: Tables, rows: seq<SourceRow>, i: nat, dryRun: bool)
    requires Indexed(t) && i < |rows|
    ensures var before := Run(t, rows[..i], dryRun);
            && before.0.byEmail.Values <= before.0.users.Keys
            && Run(t, rows[..i + 1], dryRun) ==
               (ImportRow(before.0, rows[i], dryRun).0, Count(before.1, ImportRow(before.0, rows[i], dryRun).1))
  {
    assert rows[..i + 1][..i] == rows[..i];
    ImportRowIndexed(Run(t, rows[..i], dryRun).0, rows[i], dryRun);
    hide ImportRow, Indexed, Count;
  }

  // ---------------------------------------------------------------------------
  // The program
  // ---------------------------------------------------------------------------

  class AuthTables {
    var users: map<UserKey, User>
    var byEmail: map<string, UserKey>
    var accounts: map<UserKey, Account>

    function View(): Tables
      reads this
    {
      Tables(users, byEmail, accounts)
    }

    method RunPreflight(row: SourceRow) returns (r: Preflight)
      requires row.LegacyUser? && Indexed(View())
      ensures View().byEmail.Values <= View().users.Keys && r == Classify(View(), row)
    {
      var id, email := Legacy(row.id), Normal(row.email);
      if id !in users && email !in byEmail {
        return New;
      }
      var idMatches := id in users && SameIdentity(View(), id, id, email);
      var emailMatches := email in byEmail && SameIdentity(View(), byEmail[email], id, email);
      if !idMatches || !emailMatches {
        return Conflict;
      }
      if id !in accounts {
        return Failed;
      }
      match accounts[id].hash
      case None => return Failed;
      case Some(existing) => return if existing != "" then AlreadyImported else Failed;
    }

    method ImportCredential(id: UserKey, email: string, name: string, verified: bool, hash: string)
      returns (r: Result<(), ImportError>)
      modifies this
      ensures (View(), r) == Import(old(View()), id, email, name, verified, hash)
    {
      var normal := Normal(email);
      if !ValidEmail(normal) {
        return Err(InvalidEmail);
      }
      if !ValidName(name) {
        return Err(InvalidName);
      }
      if hash == "" {
        return Err(EmptyHash);
      }
      if normal in byEmail {
        return Err(EmailTaken);
      }
      if id in users || id in accounts {
        return Err(TransactionFailed);
      }
      users := users[id := User(normal, name, verified)];
      byEmail := byEmail[normal := id];
      accounts := accounts[id := Account(id, normal, Some(hash))];
      return Ok(());
    }

    /** One turn of the program's loop. */
    method HandleRow(row: SourceRow, dryRun: bool, before: Summary) returns (summary: Summary)
      requires Indexed(View())
      modifies this
      ensures old(View()).byEmail.Values <= old(View()).users.Keys
      ensures View() == ImportRow(old(View()), row, dryRun).0
      ensures summary == Count(before, ImportRow(old(View()), row, dryRun).1)
    {
      hide Classify, Import, Normal, LegacyHash, DisplayName;
      ImportRowIndexed(View(), row, dryRun);
      hide Indexed;
      summary := before.(scanned := before.scanned + 1);
      if row.Unreadable? {
        summary := summary.(failed := summary.failed + 1);
        return;
      }
      var checked := RunPreflight(row);
      match checked {
        case AlreadyImported => summary := summary.(alreadyImported := summary.alreadyImported + 1);
        case Conflict => summary := summary.(conflicts := summary.conflicts + 1);
        case Failed => summary := summary.(failed := summary.failed + 1);
        case New =>
          if !LegacyHash(row.hash) {
            summary := summary.(failed := summary.failed + 1);
            return;
          }
          if dryRun {
            summary := summary.(wouldImport := summary.wouldImport + 1);
            return;
          }
          var r := ImportCredential(Legacy(row.id), Normal(row.email), DisplayName(row.email), row.verified, row.hash);
          if r.Ok? {
            summary := summary.(imported := summary.imported + 1);
          } else {
            summary := summary.(failed := summary.failed + 1);
          }
      }
    }

    method RunImport(rows: seq<SourceRow>, dryRun: bool) returns (summary: Summary)
      requires Indexed(View())
      modifies this
      ensures (View(), summary) == Run(old(View()), rows, dryRun)
    {
      summary := NOTHING;
      var i := 0;
      assert rows[..0] == [] && Run(View(), [], dryRun) == (View(), NOTHING);
      hide Run, ImportRow, Indexed, Count;
      while i < |rows|
        invariant 0 <= i <= |rows|
        invariant (View(), summary) == Run(old(View()), rows[..i], dryRun)
      {
        RunTurn(old(View()), rows, i, dryRun);
        summary := HandleRow(rows[i], dryRun, summary);
        i := i + 1;
      }
      assert rows[..i] == rows;
    }
  }

  // ---------------------------------------------------------------------------
  // Restarting
  // ---------------------------------------------------------------------------

  /**
    What may happen to the tables in time: users and accounts are added, and a login may replace
    a stored hash by a new one. No identity changes, and no hash disappears.
   */
  ghost predicate Grows(t: Tables, t': Tables) {
    && (forall k | k in t.users :: k in t'.users && t'.users[k] == t.users[k])
    && (forall e | e in t.byEmail :: e in t'.byEmail && t'.byEmail[e] == t.byEmail[e])
    && (forall k | k in t.accounts :: k in t'.accounts
          && t'.accounts[k].user == t.accounts[k].user && t'.accounts[k].accountId == t.accounts[k].accountId
          && (t.accounts[k].hash != None && t.accounts[k].hash != Some("") ==>
              t'.accounts[k].hash != None && t'.accounts[k].hash != Some("")))
  }

  /** No run rewrites anything: users, accounts and hashes that were there stay as they were. */
  ghost predicate Extends(t: Tables, t': Tables) {
    && (forall k | k in t.users :: k in t'.users && t'.users[k] == t.users[k])
    && (forall e | e in t.byEmail :: e in t'.byEmail && t'.byEmail[e] == t.byEmail[e])
    && (forall k | k in t.accounts :: k in t'.accounts && t'.accounts[k] == t.accounts[k])
  }

  lemma ImportRowExtends(t: Tables, row: SourceRow, dryRun: bool)
    requires Indexed(t)
    ensures t.byEmail.Values <= t.users.Keys && Extends(t, ImportRow(t, row, dryRun).0)
    ensures dryRun ==> ImportRow(t, row, dryRun).0 == t
  {
    hide Indexed, Normal, LegacyHash, DisplayName, Import, Classify, Extends;
    EmailsHaveUsers(t);
    ExtendsSelf(t);
    if row.LegacyUser? {
      ImportExtends(t, Legacy(row.id), Normal(row.email), DisplayName(row.email), row.verified, row.hash);
    }
  }

  lemma EmailsHaveUsers(t: Tables)
    requires Indexed(t)
    ensures t.byEmail.Values <= t.users.Keys
  {
  }

  lemma ExtendsSelf(t: Tables)
    ensures Extends(t, t)
  {
  }

  lemma ImportExtends(t: Tables, id: UserKey, email: string, name: string, verified: bool, hash: string)
    ensures Extends(t, Import(t, id, email, name, verified, hash).0)
  {
    hide Normal, ValidEmail, ValidName;
  }

  lemma {:induction false} RunExtends(t: Tables, rows: seq<SourceRow>, dryRun: bool)
    requires Indexed(t)
    ensures Extends(t, Run(t, rows, dryRun).0)
    ensures dryRun ==> Run(t, rows, dryRun).0 == t
  {
    if rows != [] {
      RunExtends(t, rows[..|rows| - 1], dryRun);
      ImportRowExtends(Run(t, rows[..|rows| - 1], dryRun).0, rows[|rows| - 1], dryRun);
      hide ImportRow, Indexed;
    }
  }

  /** A row that would be imported: New, with a legacy hash and an acceptable email, and no stray account. */
  predicate Importable(t: Tables, row: SourceRow) {
    && row.LegacyUser? && LegacyHash(row.hash) && ValidEmail(Normal(row.email))
    && Legacy(row.id) !in t.users && Normal(row.email) !in t.byEmail && Legacy(row.id) !in t.accounts
  }

  lemma ImportResult(t: Tables, id: UserKey, email: string, name: string, verified: bool, hash: string)
    ensures var (t', r) := Import(t, id, email, name, verified, hash);
            && (r.Ok? <==>
                && ValidEmail(Normal(email)) && ValidName(name) && hash != ""
                && Normal(email) !in t.byEmail && id !in t.users && id !in t.accounts)
            && (r.Err? ==> t' == t)
            && (r.Ok? ==> Added(t, t', id, Normal(email), hash))
  {
    hide Normal, ValidEmail, ValidName;
  }

  /** What is stored for the row: the user with its normal email and the row's flag, and the account with its hash. */
  lemma ImportStores(t: Tables, row: SourceRow)
    requires Indexed(t) && Importable(t, row)
    ensures t.byEmail.Values <= t.users.Keys
    ensures var t' := ImportRow(t, row, false).0;
            var id, email := Legacy(row.id), Normal(row.email);
            && t'.users == t.users[id := User(email, DisplayName(row.email), row.verified)]
            && t'.byEmail == t.byEmail[email := id]
            && t'.accounts == t.accounts[id := Account(id, email, Some(row.hash))]
  {
    NormalIsStable(row.email);
    ClassifiedNew(t, row);
    ImportsExactly(t, row);
    hide Normal, ValidEmail, DisplayName, Classify, Added, Indexed, Import;
    ImportShape(t, Legacy(row.id), Normal(row.email), DisplayName(row.email), row.verified, row.hash);
  }

  lemma ImportShape(t: Tables, id: UserKey, email: string, name: string, verified: bool, hash: string)
    requires Import(t, id, email, name, verified, hash).1.Ok?
    ensures Import(t, id, email, name, verified, hash).0 ==
            Tables(t.users[id := User(Normal(email), name, verified)], t.byEmail[Normal(email) := id],
                   t.accounts[id := Account(id, Normal(email), Some(hash))])
  {
    hide Normal, ValidEmail, ValidName;
  }

  /** One user more, with its account, and nothing else changed. */
  ghost predicate Added(t: Tables, t': Tables, id: UserKey, email: string, hash: string) {
    && t'.users.Keys == t.users.Keys + {id} && t'.users[id].email == email
    && t'.byEmail == t.byEmail[email := id]
    && t'.accounts.Keys == t.accounts.Keys + {id} && t'.accounts[id] == Account(id, email, Some(hash))
    && Extends(t, t')
  }

  lemma ClassifiedNew(t: Tables, row: SourceRow)
    requires row.LegacyUser? && t.byEmail.Values <= t.users.Keys
    ensures Classify(t, row) == New <==> Legacy(row.id) !in t.users && Normal(row.email) !in t.byEmail
  {
    hide Normal;
  }

  /** Exactly the importable rows are imported, with their hash byte for byte. */
  lemma ImportsExactly(t: Tables, row: SourceRow)
    requires Indexed(t)
    ensures t.byEmail.Values <= t.users.Keys
    ensures var (t', o) := ImportRow(t, row, false);
            && (o == DidImport <==> Importable(t, row))
            && (o != DidImport ==> t' == t)
            && (o == DidImport ==> Added(t, t', Legacy(row.id), Normal(row.email), row.hash))
  {
    if row.LegacyUser? {
      NormalIsStable(row.email);
      assert LegacyHash(row.hash) ==> row.hash != "";
      ClassifiedNew(t, row);
      ImportResult(t, Legacy(row.id), Normal(row.email), DisplayName(row.email), row.verified, row.hash);
    }
    hide Normal, ValidEmail, LegacyHash, DisplayName, Classify, Import, Added, Indexed, ValidName;
  }

  /** Once a row has had its turn, it is never importable again, however the tables grow. */
  lemma ProcessedStays(t: Tables, row: SourceRow, later: Tables)
    requires Indexed(t) && t.byEmail.Values <= t.users.Keys && Grows(ImportRow(t, row, false).0, later)
    ensures !Importable(later, row)
  {
    ImportsExactly(t, row);
    hide Normal, ValidEmail, LegacyHash, ImportRow;
  }

  lemma {:induction false} PrefixProcessed(t: Tables, rows: seq<SourceRow>, later: Tables, i: nat)
    requires Indexed(t) && i < |rows| && Grows(Run(t, rows, false).0, later)
    ensures !Importable(later, rows[i])
  {
    var init, last := rows[..|rows| - 1], rows[|rows| - 1];
    var before := Run(t, init, false).0;
    ImportRowExtends(before, last, false);
    if i == |rows| - 1 {
      ProcessedStays(before, last, later);
    } else {
      assert rows[i] == init[i];
      GrowsThrough(before, ImportRow(before, last, false).0, later);
      hide ImportRow, Importable, Grows, Extends;
      PrefixProcessed(t, init, later, i);
    }
  }

  lemma GrowsThrough(t: Tables, t1: Tables, t2: Tables)
    requires Extends(t, t1) && Grows(t1, t2)
    ensures Grows(t, t2)
  {
  }

  /** Rows that cannot be imported leave the tables alone, however many there are. */
  lemma {:induction false} NothingToDo(t: Tables, rows: seq<SourceRow>)
    requires Indexed(t) && forall i | 0 <= i < |rows| :: !Importable(t, rows[i])
    ensures Run(t, rows, false).0 == t
  {
    if rows != [] {
      NothingToDo(t, rows[..|rows| - 1]);
      ImportsExactly(t, rows[|rows| - 1]);
      hide ImportRow, Importable;
    }
  }

  lemma {:induction false} RunInTwo(t: Tables, rows: seq<SourceRow>, more: seq<SourceRow>)
    requires Indexed(t)
    ensures Run(t, rows + more, false).0 == Run(Run(t, rows, false).0, more, false).0
  {
    if more == [] {
      assert rows + more == rows;
    } else {
      hide *;
      var all, n, m := rows + more, |rows + more| - 1, |more| - 1;
      assert all[..n] == rows + more[..m] && all[n] == more[m] && all[..n + 1] == all && more[..m + 1] == more;
      RunInTwo(t, rows, more[..m]);
      RunTurn(t, all, n, false);
      RunTurn(Run(t, rows, false).0, more, m, false);
    }
  }

  /**
    Restart: stop after any prefix, let the tables grow meanwhile, and run again from the start.
    The result is what finishing the remaining rows would give; without outside changes, it is
    the result of one uninterrupted run.
   */
  lemma Restart(t: Tables, rows: seq<SourceRow>, k: nat, later: Tables)
    requires Indexed(t) && k <= |rows|
    requires Indexed(later) && Grows(Run(t, rows[..k], false).0, later)
    ensures Run(later, rows, false).0 == Run(later, rows[k..], false).0
    ensures Run(Run(t, rows[..k], false).0, rows, false).0 == Run(t, rows, false).0
  {
    hide *;
    var first, rest := rows[..k], rows[k..];
    var stopped := Run(t, first, false).0;
    assert rows == first + rest;
    GrowsSelf(stopped);
    forall i | 0 <= i < |first| ensures !Importable(later, first[i]) && !Importable(stopped, first[i]) {
      PrefixProcessed(t, first, later, i);
      PrefixProcessed(t, first, stopped, i);
    }
    NothingToDo(later, first);
    RunInTwo(later, first, rest);
    NothingToDo(stopped, first);
    RunInTwo(stopped, first, rest);
    RunInTwo(t, first, rest);
  }

  lemma GrowsSelf(t: Tables)
    ensures Grows(t, t)
  {
  }

  // ---------------------------------------------------------------------------
  // Counting
  // ---------------------------------------------------------------------------

  lemma OutcomeKinds(t: Tables, row: SourceRow, dryRun: bool)
    requires t.byEmail.Values <= t.users.Keys
    ensures ImportRow(t, row, dryRun).1 != if dryRun then DidImport else WouldImport
  {
    hide Classify, Import, LegacyHash, Normal, DisplayName;
  }

  lemma NothingRun(t: Tables, dryRun: bool)
    requires Indexed(t)
    ensures Run(t, [], dryRun) == (t, Summary(0, 0, 0, 0, 0, 0))
  {
  }

  /** Each scanned row adds to exactly one counter. */
  lemma {:induction false} EveryRowCounted(t: Tables, rows: seq<SourceRow>, dryRun: bool)
    requires Indexed(t)
    ensures var s := Run(t, rows, dryRun).1;
            && s.scanned == |rows|
            && s.scanned == s.imported + s.alreadyImported + s.conflicts + s.failed + s.wouldImport
            && (if dryRun then s.imported == 0 else s.wouldImport == 0)
  {
    if rows == [] {
      NothingRun(t, dryRun);
    } else {
      hide *;
      var front, last := rows[..|rows| - 1], rows[|rows| - 1];
      EveryRowCounted(t, front, dryRun);
      RunTurn(t, rows, |rows| - 1, dryRun);
      assert rows[..|rows| - 1 + 1] == rows;
      var before := Run(t, front, dryRun);
      OutcomeKinds(before.0, last, dryRun);
      CountAdds(before.1, ImportRow(before.0, last, dryRun).1);
    }
  }

  /** A row that a dry run counts. */
  predicate Counted(t: Tables, row: SourceRow) {
    row.LegacyUser? && LegacyHash(row.hash) && Legacy(row.id) !in t.users && Normal(row.email) !in t.byEmail
  }

  lemma DryOutcome(t: Tables, row: SourceRow)
    requires Indexed(t)
    ensures t.byEmail.Values <= t.users.Keys
    ensures ImportRow(t, row, true).1 == WouldImport <==> Counted(t, row)
  {
    hide LegacyHash, Normal;
  }

  lemma CountAdds(s: Summary, o: Outcome)
    ensures Count(s, o).imported == s.imported + (if o == DidImport then 1 else 0)
    ensures Count(s, o).wouldImport == s.wouldImport + (if o == WouldImport then 1 else 0)
    ensures Count(s, o).alreadyImported == s.alreadyImported + (if o == WasImported then 1 else 0)
    ensures Count(s, o).conflicts == s.conflicts + (if o == DidConflict then 1 else 0)
    ensures Count(s, o).failed == s.failed + (if o == DidFail then 1 else 0)
    ensures Count(s, o).scanned == s.scanned + 1
  {
  }

  /** What one more row adds to the count of imports, and to the tables. */
  lemma RealTurn(t: Tables, rows: seq<SourceRow>, i: nat)
    requires Indexed(t) && i < |rows|
    ensures var before, after := Run(t, rows[..i], false), Run(t, rows[..i + 1], false);
            && after.1.imported == before.1.imported + (if Importable(before.0, rows[i]) then 1 else 0)
            && (Importable(before.0, rows[i]) ==>
                && rows[i].LegacyUser?
                && Added(before.0, after.0, Legacy(rows[i].id), Normal(rows[i].email), rows[i].hash))
            && (!Importable(before.0, rows[i]) ==> after.0 == before.0)
  {
    var before := Run(t, rows[..i], false);
    assert Importable(before.0, rows[i]) ==> rows[i].LegacyUser?;
    hide *;
    RunTurn(t, rows, i, false);
    ImportsExactly(before.0, rows[i]);
    CountAdds(before.1, ImportRow(before.0, rows[i], false).1);
  }

  /** What one more row adds to the count of a dry run. */
  lemma DryTurn(t: Tables, rows: seq<SourceRow>, i: nat)
    requires Indexed(t) && i < |rows|
    ensures Run(t, rows[..i + 1], true).1.wouldImport ==
            Run(t, rows[..i], true).1.wouldImport + if Counted(t, rows[i]) then 1 else 0
  {
    hide *;
    RunTurn(t, rows, i, true);
    RunExtends(t, rows[..i], true);
    DryOutcome(t, rows[i]);
    CountAdds(Run(t, rows[..i], true).1, ImportRow(t, rows[i], true).1);
  }

  lemma ImportableIsCounted(t: Tables, rows: seq<SourceRow>, row: SourceRow)
    requires Indexed(t) && Importable(Run(t, rows, false).0, row)
    ensures Counted(t, row)
  {
    RunExtends(t, rows, false);
    hide Run, Normal, LegacyHash, ValidEmail, Indexed;
  }

  lemma {:induction false} CountsTo(t: Tables, rows: seq<SourceRow>, i: nat)
    requires Indexed(t) && i <= |rows|
    ensures Run(t, rows[..i], false).1.imported <= Run(t, rows[..i], true).1.wouldImport
  {
    hide *;
    if i == 0 {
      NoRows(t, rows);
    } else {
      CountsTo(t, rows, i - 1);
      RealTurn(t, rows, i - 1);
      DryTurn(t, rows, i - 1);
      if Importable(Run(t, rows[..i - 1], false).0, rows[i - 1]) {
        ImportableIsCounted(t, rows[..i - 1], rows[i - 1]);
      }
    }
  }

  lemma NoRows(t: Tables, rows: seq<SourceRow>)
    requires Indexed(t)
    ensures Run(t, rows[..0], false) == (t, NOTHING) && Run(t, rows[..0], true) == (t, NOTHING)
    ensures NOTHING.imported == 0 && NOTHING.wouldImport == 0 && NOTHING.alreadyImported == 0
  {
  }

  /** A dry run counts at least the rows that a real run imports. */
  lemma DryRunIsUpperBound(t: Tables, rows: seq<SourceRow>)
    requires Indexed(t)
    ensures Run(t, rows, false).1.imported <= Run(t, rows, true).1.wouldImport
  {
    hide *;
    CountsTo(t, rows, |rows|);
    assert rows[..|rows|] == rows;
  }

  /** A counted row that nothing but another row can keep from being imported. */
  predicate Sure(t: Tables, row: SourceRow) {
    row.LegacyUser? && ValidEmail(Normal(row.email)) && Legacy(row.id) !in t.accounts
  }

  predicate Twins(a: SourceRow, b: SourceRow) {
    a.LegacyUser? && b.LegacyUser? && (a.id == b.id || Normal(a.email) == Normal(b.email))
  }

  /** No counted row before `i` is the twin of the row. */
  predicate NoTwinBefore(t: Tables, rows: seq<SourceRow>, i: nat, row: SourceRow)
    requires i <= |rows|
  {
    forall j | 0 <= j < i && Counted(t, rows[j]) :: !Twins(rows[j], row)
  }

  /** Every key of the tables was there before or came with a counted row before `i`. */
  ghost predicate KeysFrom(t: Tables, rows: seq<SourceRow>, i: nat, now: Tables)
    requires i <= |rows|
  {
    && (forall k | k in now.users :: k in t.users || Arrived(t, rows, i, k))
    && (forall k | k in now.accounts :: k in t.accounts || Arrived(t, rows, i, k))
  }

  ghost predicate EmailsFrom(t: Tables, rows: seq<SourceRow>, i: nat, now: Tables)
    requires i <= |rows|
  {
    forall e | e in now.byEmail :: e in t.byEmail || EmailArrived(t, rows, i, e)
  }

  /** Every counted row before `i` is in the tables. */
  ghost predicate RowsIn(t: Tables, rows: seq<SourceRow>, i: nat, now: Tables)
    requires i <= |rows|
  {
    forall j | 0 <= j < i && Counted(t, rows[j]) ::
      Legacy(rows[j].id) in now.users && Normal(rows[j].email) in now.byEmail
  }

  /** What the rows before `i` have made of the tables, if every counted one of them was imported. */
  ghost predicate AllImported(t: Tables, rows: seq<SourceRow>, i: nat, now: Tables)
    requires i <= |rows|
  {
    Extends(t, now) && KeysFrom(t, rows, i, now) && EmailsFrom(t, rows, i, now) && RowsIn(t, rows, i, now)
  }

  ghost predicate Arrived(t: Tables, rows: seq<SourceRow>, i: nat, k: UserKey)
    requires i <= |rows|
  {
    exists j :: 0 <= j < i && Counted(t, rows[j]) && Legacy(rows[j].id) == k
  }

  ghost predicate EmailArrived(t: Tables, rows: seq<SourceRow>, i: nat, e: string)
    requires i <= |rows|
  {
    exists j :: 0 <= j < i && Counted(t, rows[j]) && Normal(rows[j].email) == e
  }

  /** If all counted rows so far were imported, the next is imported exactly if it is sure and has no twin. */
  lemma NextImported(t: Tables, rows: seq<SourceRow>, i: nat, now: Tables)
    requires i < |rows| && AllImported(t, rows, i, now)
    ensures Importable(now, rows[i]) <==>
              Counted(t, rows[i]) && Sure(t, rows[i]) && NoTwinBefore(t, rows, i, rows[i])
  {
    hide *;
    if Importable(now, rows[i]) {
      ImportedIsSure(t, rows, i, now);
    }
    if Counted(t, rows[i]) && Sure(t, rows[i]) && NoTwinBefore(t, rows, i, rows[i]) {
      SureIsImported(t, rows, i, now);
    }
  }

  lemma ImportedIsSure(t: Tables, rows: seq<SourceRow>, i: nat, now: Tables)
    requires i < |rows| && AllImported(t, rows, i, now) && Importable(now, rows[i])
    ensures Counted(t, rows[i]) && Sure(t, rows[i]) && NoTwinBefore(t, rows, i, rows[i])
  {
    hide Normal, LegacyHash, ValidEmail, Arrived, EmailArrived;
    forall j | 0 <= j < i && Counted(t, rows[j]) ensures !Twins(rows[j], rows[i]) {
      assert Legacy(rows[j].id) in now.users && Normal(rows[j].email) in now.byEmail;
    }
    hide Twins;
  }

  lemma SureIsImported(t: Tables, rows: seq<SourceRow>, i: nat, now: Tables)
    requires i < |rows| && AllImported(t, rows, i, now)
    requires Counted(t, rows[i]) && Sure(t, rows[i]) && NoTwinBefore(t, rows, i, rows[i])
    ensures Importable(now, rows[i])
  {
    var id, email := Legacy(rows[i].id), Normal(rows[i].email);
    hide Normal, LegacyHash, ValidEmail;
    NotArrived(t, rows, i, rows[i]);
    hide Arrived, EmailArrived, NoTwinBefore;
  }

  lemma NotArrived(t: Tables, rows: seq<SourceRow>, i: nat, row: SourceRow)
    requires i <= |rows| && row.LegacyUser? && NoTwinBefore(t, rows, i, row)
    ensures !Arrived(t, rows, i, Legacy(row.id)) && !EmailArrived(t, rows, i, Normal(row.email))
  {
    hide Normal, LegacyHash;
  }

  lemma ArrivedMore(t: Tables, rows: seq<SourceRow>, i: nat, k: UserKey, e: string)
    requires i < |rows|
    ensures Arrived(t, rows, i, k) ==> Arrived(t, rows, i + 1, k)
    ensures EmailArrived(t, rows, i, e) ==> EmailArrived(t, rows, i + 1, e)
    ensures Counted(t, rows[i]) ==>
              && rows[i].LegacyUser?
              && Arrived(t, rows, i + 1, Legacy(rows[i].id)) && EmailArrived(t, rows, i + 1, Normal(rows[i].email))
  {
    assert Counted(t, rows[i]) ==> rows[i].LegacyUser?;
    hide Normal, Counted;
    if j :| 0 <= j < i && Counted(t, rows[j]) && Legacy(rows[j].id) == k {
      assert Arrived(t, rows, i + 1, k);
    }
    if j :| 0 <= j < i && Counted(t, rows[j]) && Normal(rows[j].email) == e {
      assert EmailArrived(t, rows, i + 1, e);
    }
  }

  /** The same predicate, one conjunct and one key at a time. */
  lemma MembersArrived(t: Tables, rows: seq<SourceRow>, i: nat, now: Tables, k: UserKey, e: string)
    requires i <= |rows| && AllImported(t, rows, i, now)
    ensures k in now.users || k in now.accounts ==> k in t.users || k in t.accounts || Arrived(t, rows, i, k)
    ensures k in now.users ==> k in t.users || Arrived(t, rows, i, k)
    ensures k in now.accounts ==> k in t.accounts || Arrived(t, rows, i, k)
    ensures e in now.byEmail ==> e in t.byEmail || EmailArrived(t, rows, i, e)
  {
    hide Arrived, EmailArrived, Counted, Normal, Extends;
  }

  lemma RowImported(t: Tables, rows: seq<SourceRow>, i: nat, now: Tables, j: nat)
    requires j < i <= |rows| && AllImported(t, rows, i, now) && Counted(t, rows[j])
    ensures rows[j].LegacyUser? && Legacy(rows[j].id) in now.users && Normal(rows[j].email) in now.byEmail
  {
    hide Arrived, EmailArrived, Normal, Extends;
  }

  lemma AddedMembers(now: Tables, next: Tables, id: UserKey, email: string, hash: string, k: UserKey, e: string)
    requires Added(now, next, id, email, hash)
    ensures k in next.users <==> k in now.users || k == id
    ensures k in next.accounts <==> k in now.accounts || k == id
    ensures e in next.byEmail <==> e in now.byEmail || e == email
    ensures Extends(now, next)
  {
  }

  lemma ExtendsThrough(t: Tables, now: Tables, next: Tables)
    requires Extends(t, now) && Extends(now, next)
    ensures Extends(t, next)
  {
  }

  lemma KeyNext(t: Tables, rows: seq<SourceRow>, i: nat, now: Tables, next: Tables, k: UserKey, e: string)
    requires i < |rows| && AllImported(t, rows, i, now) && Counted(t, rows[i]) && rows[i].LegacyUser?
    requires Added(now, next, Legacy(rows[i].id), Normal(rows[i].email), rows[i].hash)
    ensures k in next.users ==> k in t.users || Arrived(t, rows, i + 1, k)
    ensures k in next.accounts ==> k in t.accounts || Arrived(t, rows, i + 1, k)
    ensures e in next.byEmail ==> e in t.byEmail || EmailArrived(t, rows, i + 1, e)
  {
    hide *;
    MembersArrived(t, rows, i, now, k, e);
    AddedMembers(now, next, Legacy(rows[i].id), Normal(rows[i].email), rows[i].hash, k, e);
    ArrivedMore(t, rows, i, k, e);
  }

  lemma RowNext(t: Tables, rows: seq<SourceRow>, i: nat, now: Tables, next: Tables, j: nat)
    requires i < |rows| && AllImported(t, rows, i, now) && Counted(t, rows[i]) && rows[i].LegacyUser?
    requires Added(now, next, Legacy(rows[i].id), Normal(rows[i].email), rows[i].hash)
    requires j <= i && Counted(t, rows[j]) && rows[j].LegacyUser?
    ensures Legacy(rows[j].id) in next.users && Normal(rows[j].email) in next.byEmail
  {
    hide *;
    AddedMembers(now, next, Legacy(rows[i].id), Normal(rows[i].email), rows[i].hash,
                 Legacy(rows[j].id), Normal(rows[j].email));
    if j < i {
      RowImported(t, rows, i, now, j);
    }
  }

  lemma RowsNext(t: Tables, rows: seq<SourceRow>, i: nat, now: Tables, next: Tables)
    requires i < |rows| && AllImported(t, rows, i, now) && Counted(t, rows[i]) && rows[i].LegacyUser?
    requires Added(now, next, Legacy(rows[i].id), Normal(rows[i].email), rows[i].hash)
    ensures RowsIn(t, rows, i + 1, next)
  {
    assert forall j | 0 <= j < i + 1 && Counted(t, rows[j]) :: rows[j].LegacyUser?;
    hide Normal, Counted, Added, AllImported;
    forall j | 0 <= j < i + 1 && Counted(t, rows[j])
      ensures Legacy(rows[j].id) in next.users && Normal(rows[j].email) in next.byEmail
    {
      RowNext(t, rows, i, now, next, j);
    }
  }

  lemma KeysNext(t: Tables, rows: seq<SourceRow>, i: nat, now: Tables, next: Tables)
    requires i < |rows| && AllImported(t, rows, i, now) && Counted(t, rows[i]) && rows[i].LegacyUser?
    requires Added(now, next, Legacy(rows[i].id), Normal(rows[i].email), rows[i].hash)
    ensures KeysFrom(t, rows, i + 1, next) && EmailsFrom(t, rows, i + 1, next)
  {
    hide Normal, Counted, Added, AllImported, Arrived, EmailArrived;
    forall k ensures k in next.users ==> k in t.users || Arrived(t, rows, i + 1, k)
      ensures k in next.accounts ==> k in t.accounts || Arrived(t, rows, i + 1, k)
    {
      KeyNext(t, rows, i, now, next, k, "");
    }
    forall e ensures e in next.byEmail ==> e in t.byEmail || EmailArrived(t, rows, i + 1, e) {
      KeyNext(t, rows, i, now, next, Legacy(0), e);
    }
  }

  lemma AllImportedNext(t: Tables, rows: seq<SourceRow>, i: nat, now: Tables, next: Tables)
    requires i < |rows| && AllImported(t, rows, i, now) && Counted(t, rows[i]) && rows[i].LegacyUser?
    requires Added(now, next, Legacy(rows[i].id), Normal(rows[i].email), rows[i].hash)
    ensures AllImported(t, rows, i + 1, next)
  {
    hide Extends, KeysFrom, EmailsFrom, RowsIn, Added, Counted, Normal;
    AddedMembers(now, next, Legacy(rows[i].id), Normal(rows[i].email), rows[i].hash, Legacy(0), "");
    ExtendsThrough(t, now, next);
    KeysNext(t, rows, i, now, next);
    RowsNext(t, rows, i, now, next);
  }

  lemma KeysStay(t: Tables, rows: seq<SourceRow>, i: nat, now: Tables)
    requires i < |rows| && AllImported(t, rows, i, now)
    ensures KeysFrom(t, rows, i + 1, now) && EmailsFrom(t, rows, i + 1, now)
  {
    hide Normal, Counted, AllImported, Arrived, EmailArrived;
    forall k ensures k in now.users ==> k in t.users || Arrived(t, rows, i + 1, k)
      ensures k in now.accounts ==> k in t.accounts || Arrived(t, rows, i + 1, k)
    {
      MembersArrived(t, rows, i, now, k, "");
      ArrivedMore(t, rows, i, k, "");
    }
    forall e ensures e in now.byEmail ==> e in t.byEmail || EmailArrived(t, rows, i + 1, e) {
      MembersArrived(t, rows, i, now, Legacy(0), e);
      ArrivedMore(t, rows, i, Legacy(0), e);
    }
  }

  lemma NoneNext(t: Tables, rows: seq<SourceRow>, i: nat, now: Tables)
    requires i < |rows| && AllImported(t, rows, i, now) && !Counted(t, rows[i])
    ensures AllImported(t, rows, i + 1, now)
  {
    KeysStay(t, rows, i, now);
    assert RowsIn(t, rows, i + 1, now) by {
      hide Normal, KeysFrom, EmailsFrom, Extends;
    }
    hide Extends, KeysFrom, EmailsFrom, RowsIn;
  }

  ghost predicate AllSure(t: Tables, rows: seq<SourceRow>, i: nat)
    requires i <= |rows|
  {
    forall j | 0 <= j < i && Counted(t, rows[j]) :: Sure(t, rows[j]) && NoTwinBefore(t, rows, j, rows[j])
  }

  lemma AllSureStep(t: Tables, rows: seq<SourceRow>, i: nat)
    requires i < |rows|
    ensures AllSure(t, rows, i + 1) <==>
              AllSure(t, rows, i) && (Counted(t, rows[i]) ==> Sure(t, rows[i]) && NoTwinBefore(t, rows, i, rows[i]))
  {
    hide Counted, Sure, NoTwinBefore;
  }

  /** One row more, told from the tables before and after it and the two counts. */
  lemma ExactStep(t: Tables, rows: seq<SourceRow>, i: nat, now: Tables, next: Tables,
          imported: nat, imported': nat, counted: nat, counted': nat)
    requires i < |rows| && imported <= counted
    requires imported == counted <==> AllSure(t, rows, i)
    requires AllSure(t, rows, i) ==> AllImported(t, rows, i, now)
    requires imported' == imported + if Importable(now, rows[i]) then 1 else 0
    requires counted' == counted + if Counted(t, rows[i]) then 1 else 0
    requires Importable(now, rows[i]) ==> Counted(t, rows[i])
    requires if Importable(now, rows[i])
             then rows[i].LegacyUser? && Added(now, next, Legacy(rows[i].id), Normal(rows[i].email), rows[i].hash)
             else next == now
    ensures imported' == counted' <==> AllSure(t, rows, i + 1)
    ensures AllSure(t, rows, i + 1) ==> AllImported(t, rows, i + 1, next)
  {
    hide *;
    AllSureStep(t, rows, i);
    if AllSure(t, rows, i) {
      NextImported(t, rows, i, now);
      if Importable(now, rows[i]) {
        AllImportedNext(t, rows, i, now, next);
      } else if !Counted(t, rows[i]) {
        NoneNext(t, rows, i, now);
      }
    }
  }

  lemma NothingYet(t: Tables, rows: seq<SourceRow>)
    ensures AllSure(t, rows, 0) && AllImported(t, rows, 0, t)
  {
  }

  lemma {:induction false} ExactTo(t: Tables, rows: seq<SourceRow>, i: nat)
    requires Indexed(t) && i <= |rows|
    ensures Run(t, rows[..i], false).1.imported == Run(t, rows[..i], true).1.wouldImport <==> AllSure(t, rows, i)
    ensures AllSure(t, rows, i) ==> AllImported(t, rows, i, Run(t, rows[..i], false).0)
  {
    hide *;
    if i == 0 {
      NoRows(t, rows);
      NothingYet(t, rows);
    } else {
      var k := i - 1;
      ExactTo(t, rows, k);
      CountsTo(t, rows, k);
      RealTurn(t, rows, k);
      DryTurn(t, rows, k);
      var now, after := Run(t, rows[..k], false), Run(t, rows[..k + 1], false);
      if Importable(now.0, rows[k]) {
        ImportableIsCounted(t, rows[..k], rows[k]);
      }
      ExactStep(t, rows, k, now.0, after.0, now.1.imported, after.1.imported,
                Run(t, rows[..k], true).1.wouldImport, Run(t, rows[..k + 1], true).1.wouldImport);
    }
  }

  /**
    The dry-run count is the number of imports if and only if every counted row has an acceptable
    email and no stray account, and no two counted rows share an id or a normal email.
   */
  lemma DryRunExactly(t: Tables, rows: seq<SourceRow>)
    requires Indexed(t)
    ensures Run(t, rows, false).1.imported == Run(t, rows, true).1.wouldImport <==>
              && (forall i | 0 <= i < |rows| && Counted(t, rows[i]) :: Sure(t, rows[i]))
              && (forall i, j | 0 <= i < j < |rows| && Counted(t, rows[i]) && Counted(t, rows[j]) ::
                    !Twins(rows[i], rows[j]))
  {
    ExactTo(t, rows, |rows|);
    assert rows[..|rows|] == rows;
    AllSureMeans(t, rows);
    hide *;
  }

  lemma AllSureMeans(t: Tables, rows: seq<SourceRow>)
    ensures AllSure(t, rows, |rows|) <==>
              && (forall i | 0 <= i < |rows| && Counted(t, rows[i]) :: Sure(t, rows[i]))
              && (forall i, j | 0 <= i < j < |rows| && Counted(t, rows[i]) && Counted(t, rows[j]) ::
                    !Twins(rows[i], rows[j]))
  {
    hide Counted, Sure, Twins;
  }

  /** So any two counted rows whose emails differ only in case or white space make the estimate too high. */
  lemma DryRunCountsTwins(t: Tables, rows: seq<SourceRow>, i: nat, j: nat)
    requires Indexed(t) && i < j < |rows| && Counted(t, rows[i]) && Counted(t, rows[j]) && Twins(rows[i], rows[j])
    ensures Run(t, rows, false).1.imported < Run(t, rows, true).1.wouldImport
  {
    DryRunExactly(t, rows);
    DryRunIsUpperBound(t, rows);
    hide Run, Counted, Sure, Twins;
  }

  // ---------------------------------------------------------------------------
  // What the outcomes mean, and a second run
  // ---------------------------------------------------------------------------

  /** Neither the id nor the normal email of the row is taken. */
  predicate Untaken(t: Tables, row: SourceRow) {
    row.LegacyUser? && Legacy(row.id) !in t.users && Normal(row.email) !in t.byEmail
  }

  /** One stored user has both the id and the normal email of the row. */
  predicate Held(t: Tables, row: SourceRow) {
    && row.LegacyUser? && Legacy(row.id) in t.users && t.users[Legacy(row.id)].email == Normal(row.email)
  }

  /** The user has an account with a password. */
  predicate HasPassword(t: Tables, k: UserKey) {
    k in t.accounts && t.accounts[k].hash.Some? && t.accounts[k].hash.value != ""
  }

  lemma ClassMeans(t: Tables, row: SourceRow)
    requires Indexed(t) && row.LegacyUser? && !Untaken(t, row)
    ensures t.byEmail.Values <= t.users.Keys
    ensures Classify(t, row) ==
            if !Held(t, row) then Conflict
            else if HasPassword(t, Legacy(row.id)) then AlreadyImported else Failed
  {
    var id, email := Legacy(row.id), Normal(row.email);
    NormalIsStable(row.email);
    hide Normal;
    if Held(t, row) {
      assert email in t.byEmail && t.byEmail[email] == id;
    } else if email in t.byEmail {
      assert t.users[t.byEmail[email]].email == email;
    }
  }

  /**
    Every outcome, from the tables: a row whose id or email is taken was imported before exactly if
    one stored user has both and a password, is in conflict exactly if no stored user has both, and
    has failed otherwise. Any other row is imported, or would be, exactly if it can be.
   */
  lemma OutcomeExactly(t: Tables, row: SourceRow, dryRun: bool)
    requires Indexed(t)
    ensures t.byEmail.Values <= t.users.Keys
    ensures var o := ImportRow(t, row, dryRun).1;
            && (o == WasImported <==> Held(t, row) && HasPassword(t, Legacy(row.id)))
            && (o == DidConflict <==> row.LegacyUser? && !Untaken(t, row) && !Held(t, row))
            && (o == DidImport <==> !dryRun && Importable(t, row))
            && (o == WouldImport <==> dryRun && Untaken(t, row) && LegacyHash(row.hash))
  {
    EmailsHaveUsers(t);
    if row.LegacyUser? {
      if Untaken(t, row) {
        ClassifiedNew(t, row);
        ImportsExactly(t, row);
      } else {
        ClassMeans(t, row);
      }
    }
    hide Normal, LegacyHash, ValidEmail, DisplayName, Import, Classify, Indexed;
  }

  /** The outcome of the row at `i` in a run. */
  function OutcomeAt(t: Tables, rows: seq<SourceRow>, i: nat): Outcome
    requires Indexed(t) && i < |rows|
  {
    RunTurn(t, rows, i, false);
    ImportRow(Run(t, rows[..i], false).0, rows[i], false).1
  }

  /** The counters of a run after one more row. */
  lemma CountersAt(t: Tables, rows: seq<SourceRow>, i: nat)
    requires Indexed(t) && i < |rows|
    ensures var before, after := Run(t, rows[..i], false).1, Run(t, rows[..i + 1], false).1;
            && after.imported == before.imported + (if OutcomeAt(t, rows, i) == DidImport then 1 else 0)
            && after.alreadyImported ==
               before.alreadyImported + if OutcomeAt(t, rows, i) == WasImported then 1 else 0
  {
    RunTurn(t, rows, i, false);
    assert OutcomeAt(t, rows, i) == ImportRow(Run(t, rows[..i], false).0, rows[i], false).1;
    hide *;
    CountAdds(Run(t, rows[..i], false).1, OutcomeAt(t, rows, i));
  }

  /** The rows before `n` with the outcome. */
  function RowsWith(t: Tables, rows: seq<SourceRow>, n: nat, o: Outcome): set<nat>
    requires Indexed(t) && n <= |rows|
  {
    set i: nat | i < n && OutcomeAt(t, rows, i) == o
  }

  lemma OneRowMore(t: Tables, rows: seq<SourceRow>, n: nat, o: Outcome)
    requires Indexed(t) && n < |rows|
    ensures |RowsWith(t, rows, n + 1, o)| == |RowsWith(t, rows, n, o)| + if OutcomeAt(t, rows, n) == o then 1 else 0
  {
    hide OutcomeAt, Indexed;
    var before := RowsWith(t, rows, n, o);
    assert RowsWith(t, rows, n + 1, o) == if OutcomeAt(t, rows, n) == o then before + {n} else before;
  }

  function Tally(t: Tables, rows: seq<SourceRow>, n: nat): Summary
    requires Indexed(t) && n <= |rows|
  {
    Summary(n, |RowsWith(t, rows, n, DidImport)|, |RowsWith(t, rows, n, WasImported)|,
            |RowsWith(t, rows, n, DidConflict)|, |RowsWith(t, rows, n, DidFail)|, 0)
  }

  lemma TallyMore(t: Tables, rows: seq<SourceRow>, n: nat)
    requires Indexed(t) && n < |rows| && OutcomeAt(t, rows, n) != WouldImport
    ensures Tally(t, rows, n + 1) == Count(Tally(t, rows, n), OutcomeAt(t, rows, n))
  {
    hide OutcomeAt, Indexed, RowsWith;
    OneRowMore(t, rows, n, DidImport);
    OneRowMore(t, rows, n, WasImported);
    OneRowMore(t, rows, n, DidConflict);
    OneRowMore(t, rows, n, DidFail);
  }

  lemma NothingTallied(t: Tables, rows: seq<SourceRow>)
    requires Indexed(t)
    ensures Tally(t, rows, 0) == NOTHING
  {
    assert forall o :: RowsWith(t, rows, 0, o) == {};
    hide OutcomeAt, Indexed;
  }

  /** Each counter is the number of rows with its outcome. */
  lemma {:induction false} CountersExactly(t: Tables, rows: seq<SourceRow>, n: nat)
    requires Indexed(t) && n <= |rows|
    ensures Run(t, rows[..n], false).1 == Tally(t, rows, n)
  {
    hide *;
    if n == 0 {
      NoRows(t, rows);
      NothingTallied(t, rows);
    } else {
      CountersExactly(t, rows, n - 1);
      RunTurn(t, rows, n - 1, false);
      OutcomeIs(t, rows, n - 1);
      TallyMore(t, rows, n - 1);
    }
  }

  lemma OutcomeIs(t: Tables, rows: seq<SourceRow>, i: nat)
    requires Indexed(t) && i < |rows|
    ensures var before := Run(t, rows[..i], false).0;
            && before.byEmail.Values <= before.users.Keys
            && OutcomeAt(t, rows, i) == ImportRow(before, rows[i], false).1
            && OutcomeAt(t, rows, i) != WouldImport
  {
    RunTurn(t, rows, i, false);
    OutcomeExactly(Run(t, rows[..i], false).0, rows[i], false);
    hide ImportRow, Run, Indexed;
  }

  /** A row only ever adds the user and the account of its own id. */
  lemma OnlyOwnKey(t: Tables, row: SourceRow, k: UserKey)
    requires Indexed(t) && k != Legacy(row.id)
    ensures t.byEmail.Values <= t.users.Keys
    ensures var t' := ImportRow(t, row, false).0;
            && (k in t'.users <==> k in t.users) && (k in t'.accounts <==> k in t.accounts)
  {
    assert Importable(t, row) ==> row.LegacyUser?;
    hide *;
    ImportsExactly(t, row);
    if ImportRow(t, row, false).1 == DidImport {
      AddedMembers(t, ImportRow(t, row, false).0, Legacy(row.id), Normal(row.email), row.hash, k, "");
    }
  }

  /** The same row again, after other rows have had their turn. */
  lemma HeldLater(t: Tables, now: Tables, row: SourceRow)
    requires Indexed(t) && Indexed(now) && Extends(t, now) && row.LegacyUser?
    requires Legacy(row.id) in now.users <==> Legacy(row.id) in t.users
    requires Legacy(row.id) in now.accounts <==> Legacy(row.id) in t.accounts
    ensures Held(now, row) <==> Held(t, row)
    ensures HasPassword(now, Legacy(row.id)) <==> HasPassword(t, Legacy(row.id))
  {
    hide Indexed, Normal;
  }

  predicate DistinctIds(rows: seq<SourceRow>) {
    forall i, j | 0 <= i < j < |rows| :: rows[i].id != rows[j].id
  }

  /** The rest of a run does not touch the keys of a row that has had its turn. */
  lemma {:induction false} KeyStays(t: Tables, rows: seq<SourceRow>, i: nat, n: nat)
    requires Indexed(t) && DistinctIds(rows) && i < n <= |rows|
    ensures var now, later := Run(t, rows[..i + 1], false).0, Run(t, rows[..n], false).0;
            var k := Legacy(rows[i].id);
            && Extends(now, later)
            && (k in later.users <==> k in now.users) && (k in later.accounts <==> k in now.accounts)
  {
    hide Run, ImportRow, Extends, Indexed, DistinctIds;
    if n == i + 1 {
      ExtendsSelf(Run(t, rows[..n], false).0);
    } else {
      KeyStays(t, rows, i, n - 1);
      RunTurn(t, rows, n - 1, false);
      IdsDiffer(rows, i, n - 1);
      var before := Run(t, rows[..n - 1], false).0;
      OnlyOwnKey(before, rows[n - 1], Legacy(rows[i].id));
      ImportRowExtends(before, rows[n - 1], false);
      ExtendsThrough(Run(t, rows[..i + 1], false).0, before, Run(t, rows[..n], false).0);
    }
  }

  lemma IdsDiffer(rows: seq<SourceRow>, i: nat, j: nat)
    requires DistinctIds(rows) && i < j < |rows|
    ensures rows[i].id != rows[j].id
  {
  }

  /** An import leaves its row held with a password. */
  lemma ImportedIsHeld(t: Tables, t': Tables, row: SourceRow)
    requires row.LegacyUser? && LegacyHash(row.hash)
    requires Added(t, t', Legacy(row.id), Normal(row.email), row.hash)
    ensures Held(t', row) && HasPassword(t', Legacy(row.id))
  {
    hide Normal;
  }

  /** After its turn, a row is held with a password exactly if it was imported or found imported. */
  lemma HeldAfterTurn(t: Tables, row: SourceRow)
    requires Indexed(t)
    ensures t.byEmail.Values <= t.users.Keys
    ensures var (t', o) := ImportRow(t, row, false);
            Held(t', row) && HasPassword(t', Legacy(row.id)) <==> o == DidImport || o == WasImported
  {
    OutcomeExactly(t, row, false);
    ImportsExactly(t, row);
    var (t', o) := ImportRow(t, row, false);
    if o == DidImport {
      assert row.LegacyUser? && LegacyHash(row.hash);
      hide *;
      ImportedIsHeld(t, t', row);
    }
    hide *;
  }

  /** After a run, a row is held with a password exactly if the run imported it or found it imported. */
  lemma ImportedStays(t: Tables, rows: seq<SourceRow>, i: nat)
    requires Indexed(t) && DistinctIds(rows) && i < |rows|
    ensures var later := Run(t, rows, false).0;
            Held(later, rows[i]) && HasPassword(later, Legacy(rows[i].id)) <==>
              OutcomeAt(t, rows, i) == DidImport || OutcomeAt(t, rows, i) == WasImported
  {
    var before, now, later := Run(t, rows[..i], false).0, Run(t, rows[..i + 1], false).0, Run(t, rows, false).0;
    RunTurn(t, rows, i, false);
    assert OutcomeAt(t, rows, i) == ImportRow(before, rows[i], false).1;
    assert !rows[i].LegacyUser? ==> !Held(now, rows[i]) && !Held(later, rows[i]);
    hide *;
    KeyStays(t, rows, i, |rows|);
    assert rows[..|rows|] == rows;
    HeldAfterTurn(before, rows[i]);
    if rows[i].LegacyUser? {
      HeldLater(now, later, rows[i]);
    }
  }

  lemma NothingAgain(t: Tables, rows: seq<SourceRow>, i: nat)
    requires Indexed(t) && i <= |rows|
    ensures var later := Run(t, rows, false).0;
            Run(later, rows[..i], false).0 == later
  {
    var later := Run(t, rows, false).0;
    hide *;
    GrowsSelf(later);
    forall j | 0 <= j < i ensures !Importable(later, rows[..i][j]) {
      PrefixProcessed(t, rows, later, j);
      assert rows[..i][j] == rows[j];
    }
    NothingToDo(later, rows[..i]);
  }

  /** Row by row, a second run finds imported exactly what the first imported or found imported. */
  lemma SecondOutcome(t: Tables, rows: seq<SourceRow>, i: nat)
    requires Indexed(t) && DistinctIds(rows) && i < |rows|
    ensures OutcomeAt(Run(t, rows, false).0, rows, i) == WasImported <==>
              OutcomeAt(t, rows, i) == DidImport || OutcomeAt(t, rows, i) == WasImported
    ensures OutcomeAt(Run(t, rows, false).0, rows, i) != DidImport
  {
    var later := Run(t, rows, false).0;
    NothingAgain(t, rows, i);
    RunTurn(later, rows, i, false);
    assert OutcomeAt(later, rows, i) == ImportRow(later, rows[i], false).1;
    hide *;
    OutcomeExactly(later, rows[i], false);
    ImportedStays(t, rows, i);
    GrowsSelf(later);
    PrefixProcessed(t, rows, later, i);
  }

  lemma {:induction false} SecondCounters(t: Tables, rows: seq<SourceRow>, n: nat)
    requires Indexed(t) && DistinctIds(rows) && n <= |rows|
    ensures var later := Run(t, rows, false).0;
            var first, second := Run(t, rows[..n], false).1, Run(later, rows[..n], false).1;
            second.alreadyImported == first.imported + first.alreadyImported && second.imported == 0
  {
    hide *;
    var later := Run(t, rows, false).0;
    if n == 0 {
      NoRows(t, rows);
      NoRows(later, rows);
    } else {
      SecondCounters(t, rows, n - 1);
      CountersAt(t, rows, n - 1);
      CountersAt(later, rows, n - 1);
      SecondOutcome(t, rows, n - 1);
    }
  }

  /**
    A second run, with nothing changed meanwhile, imports nothing and counts as already imported
    exactly the rows that the first one counted as imported or as already imported.
   */
  lemma SecondRun(t: Tables, rows: seq<SourceRow>)
    requires Indexed(t) && DistinctIds(rows)
    ensures var (later, first) := Run(t, rows, false);
            var (last, second) := Run(later, rows, false);
            && last == later && second.imported == 0
            && second.alreadyImported == first.imported + first.alreadyImported
    ensures forall i | 0 <= i < |rows| ::
              OutcomeAt(Run(t, rows, false).0, rows, i) == WasImported <==>
                OutcomeAt(t, rows, i) == DidImport || OutcomeAt(t, rows, i) == WasImported
  {
    hide *;
    assert rows[..|rows|] == rows;
    SecondCounters(t, rows, |rows|);
    NothingAgain(t, rows, |rows|);
    forall i | 0 <= i < |rows|
      ensures OutcomeAt(Run(t, rows, false).0, rows, i) == WasImported <==>
                OutcomeAt(t, rows, i) == DidImport || OutcomeAt(t, rows, i) == WasImported
    {
      SecondOutcome(t, rows, i);
    }
  }

  // ---------------------------------------------------------------------------
  // Paging
  // ---------------------------------------------------------------------------

  /** The source table, in id order. */
  predicate Ordered(rows: seq<SourceRow>) {
    forall i, j | 0 <= i < j < |rows| :: rows[i].id < rows[j].id
  }

  function After(rows: seq<SourceRow>, id: int): seq<SourceRow> {
    if rows == [] then []
    else if rows[0].id > id then [rows[0]] + After(rows[1..], id)
    else After(rows[1..], id)
  }

  /** `source_rows` with `--after-id` and `--limit`. */
  function Page(rows: seq<SourceRow>, id: int, limit: nat): seq<SourceRow> {
    var rest := After(rows, id);
    if |rest| <= limit then rest else rest[..limit]
  }

  lemma {:induction false} AfterIsSuffix(rows: seq<SourceRow>, id: int) returns (k: nat)
    requires Ordered(rows)
    ensures k <= |rows| && After(rows, id) == rows[k..]
    ensures forall i | 0 <= i < |rows| :: rows[i].id > id <==> i >= k
  {
    if rows == [] {
      k := 0;
    } else {
      var k' := AfterIsSuffix(rows[1..], id);
      assert forall i | 0 < i < |rows| :: rows[i] == rows[1..][i - 1];
      if rows[0].id > id {
        assert |rows| > 1 ==> rows[1..][0].id > id;
        k := 0;
        assert rows == [rows[0]] + rows[1..];
      } else {
        k := k' + 1;
      }
    }
  }

  /** The pages of a table, each starting after the last id of the one before. */
  function Pages(rows: seq<SourceRow>, id: int, limit: nat): seq<SourceRow>
    requires Ordered(rows) && limit > 0
    decreases |After(rows, id)|
  {
    var page := Page(rows, id, limit);
    if page == [] then []
    else
      NextPage(rows, id, limit);
      page + Pages(rows, page[|page| - 1].id, limit)
  }

  lemma SplitAt(rows: seq<SourceRow>, k: nat, m: nat)
    requires k <= m <= |rows|
    ensures rows[k..] == rows[k..m] + rows[m..] && rows[k..][..m - k] == rows[k..m]
    ensures k < m ==> rows[k..m][m - k - 1] == rows[m - 1]
  {
  }

  lemma NextPage(rows: seq<SourceRow>, id: int, limit: nat)
    requires Ordered(rows) && limit > 0 && Page(rows, id, limit) != []
    ensures var page := Page(rows, id, limit);
            After(rows, id) == page + After(rows, page[|page| - 1].id)
  {
    var k := AfterIsSuffix(rows, id);
    var page := Page(rows, id, limit);
    var m := k + |page|;
    hide After;
    SplitAt(rows, k, m);
    assert page == rows[k..m];
    var last := rows[m - 1];
    var j := AfterIsSuffix(rows, last.id);
    assert !(last.id > last.id);
    assert m < |rows| ==> rows[m].id > last.id;
    assert j == m;
    hide Ordered, Page;
  }

  lemma PagesStep(rows: seq<SourceRow>, id: int, limit: nat)
    requires Ordered(rows) && limit > 0
    ensures var page := Page(rows, id, limit);
            if page == [] then After(rows, id) == [] && Pages(rows, id, limit) == []
            else Pages(rows, id, limit) == page + Pages(rows, page[|page| - 1].id, limit)
  {
    hide After, Ordered;
  }

  /** Paging by the last id covers every row once, in order, whatever the page size. */
  lemma {:induction false} PagesCoverTable(rows: seq<SourceRow>, id: int, limit: nat)
    requires Ordered(rows) && limit > 0
    ensures Pages(rows, id, limit) == After(rows, id)
    decreases |After(rows, id)|
  {
    hide *;
    var page := Page(rows, id, limit);
    PagesStep(rows, id, limit);
    if page != [] {
      NextPage(rows, id, limit);
      assert |After(rows, page[|page| - 1].id)| < |After(rows, id)|;
      PagesCoverTable(rows, page[|page| - 1].id, limit);
    }
  }
}
