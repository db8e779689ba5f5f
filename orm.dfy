/**
 * apollo_script_master/_asm/orm.py: `url_manager`, which formats the SQLAlchemy connection
 * URL from the connection keyword arguments, and the lock-table seeding that `ASMImpl.run`
 * performs through its session (`_populate_lock_table`, then commit, rollback on a store
 * error, and close on every path).
 */
module Orm {
  import opened Wrappers
  import opened Text
  import Utf8

  // ---------------------------------------------------------------------------------------
  // url_manager
  // ---------------------------------------------------------------------------------------

  /** A keyword-argument value as the connection parameters carry it. */
  datatype Param = Str(s: string) | Integer(i: int) | Flag(b: bool) | Null

  type Kwargs = map<string, Param>

  datatype UrlError = KeyError(message: string)

  /** `str()` of a natural number: its decimal digits, no leading zeros. */
  function NaturalString(n: nat): (r: string)
    decreases n
    ensures |r| >= 1
  {
    if n < 10 then ["0123456789"[n]] else NaturalString(n / 10) + ["0123456789"[n % 10]]
  }

  /** `str()` of an integer. */
  function IntegerString(i: int): string {
    if i < 0 then "-" + NaturalString(-i) else NaturalString(i)
  }

  /** Decimal text holds only digits. */
  lemma {:induction false} NaturalStringDigits(n: nat)
    decreases n
    ensures |NaturalString(n)| >= 1
    ensures forall k :: 0 <= k < |NaturalString(n)| ==> '0' <= NaturalString(n)[k] <= '9'
  {
    if n >= 10 {
      NaturalStringDigits(n / 10);
    }
  }

  /** The value of a decimal digit character. */
  function DigitValue(c: char): nat {
    if '0' <= c <= '9' then c as int - '0' as int else 0
  }

  /** The number that a string of decimal digits denotes, read most significant digit first. */
  function DecimalValue(s: string): nat
    decreases |s|
  {
    if s == [] then 0 else DecimalValue(s[..|s| - 1]) * 10 + DigitValue(s[|s| - 1])
  }

  /** Decimal text reads back as the number, and starts with '0' only for zero itself. */
  lemma {:induction false} NaturalStringValue(n: nat)
    decreases n
    ensures DecimalValue(NaturalString(n)) == n
    ensures NaturalString(n)[0] == '0' <==> n == 0
  {
    var r := NaturalString(n);
    if n < 10 {
      DigitCharValue(n);
      assert r[..0] == [];
    } else {
      var h := NaturalString(n / 10);
      NaturalStringValue(n / 10);
      DigitCharValue(n % 10);
      assert r[..|r| - 1] == h;
      assert r[0] == h[0];
    }
  }

  lemma {:induction false} DigitCharValue(d: nat)
    requires d < 10
    ensures DigitValue("0123456789"[d]) == d
    ensures "0123456789"[d] == '0' <==> d == 0
  {
  }

  /** How an f-string replacement field renders the value (`format(value, "")`, i.e. `str`). */
  function Render(p: Param): string {
    match p
    case Str(s) => s
    case Integer(i) => IntegerString(i)
    case Flag(b) => if b then "True" else "False"
    case Null => "None"
  }

  /** `kwargs.get(key, default)`. */
  function Get(kwargs: Kwargs, key: string, default: Param): Param {
    if key in kwargs then kwargs[key] else default
  }

  /** The fields of the URL, as the f-string takes them. */
  datatype UrlParts = UrlParts(
    driver: string, dialect: string, username: string, password: string,
    host: string, port: string, database: string)

  /** `kwargs.get("drivername") == "postgresql"`: only that exact string is supported. */
  predicate Supported(kwargs: Kwargs) {
    "drivername" in kwargs && kwargs["drivername"] == Str("postgresql")
  }

  /** The fields with their defaults: dialect psycopg2, port 5432, database postgres, else None. */
  function Fields(kwargs: Kwargs): UrlParts {
    UrlParts(
      Render(Get(kwargs, "drivername", Null)),
      Render(Get(kwargs, "dialect", Str("psycopg2"))),
      Render(Get(kwargs, "username", Null)),
      Render(Get(kwargs, "password", Null)),
      Render(Get(kwargs, "host", Null)),
      Render(Get(kwargs, "port", Integer(5432))),
      Render(Get(kwargs, "database", Str("postgres"))))
  }

  /** `a + c + b`, nested to the right so that every split point is explicit. */
  function Around(a: string, c: char, b: string): string {
    a + [c] + b
  }

  /** `{driver}+{dialect}://{username}:{password}@{host}:{port}/{database}`. */
  function Format(p: UrlParts): string {
    Around(p.driver, '+', Around(p.dialect, ':', "//" +
      Around(p.username, ':', Around(p.password, '@', Around(p.host, ':', Around(p.port, '/', p.database))))))
  }

  /** The message of the `KeyError` for an unsupported driver; absent keys read as None. */
  function UnsupportedMessage(kwargs: Kwargs): string {
    "The provided drivername/dialect is not supported: "
      + Render(Get(kwargs, "drivername", Null)) + "/" + Render(Get(kwargs, "dialect", Null)) + "."
  }

  /**
   * `url_manager(**kwargs)`: the URL for the supported driver, otherwise the `KeyError` that
   * is logged and raised again unchanged.
   */
  function UrlManager(kwargs: Kwargs): (r: Result<string, UrlError>)
    ensures r.Success? <==> Supported(kwargs)
    ensures r.Failure? ==> r.error == KeyError(UnsupportedMessage(kwargs))
    ensures r.Success? ==> |r.value| >= |"postgresql+://:@:/"|
  {
    if Get(kwargs, "drivername", Null) == Str("postgresql") then
      Success(Format(Fields(kwargs)))
    else
      Failure(KeyError(UnsupportedMessage(kwargs)))
  }

  /** Everything before the first `c` in `s` and everything after it, if `c` occurs. */
  function SplitAt(s: string, c: char): (r: Option<(string, string)>)
    ensures r.Some? ==> s == Around(r.value.0, c, r.value.1) && NoChar(r.value.0, c)
  {
    if s == [] then None
    else if s[0] == c then
      assert s == Around([], c, s[1..]);
      Some(([], s[1..]))
    else
      match SplitAt(s[1..], c)
      case None => None
      case Some((a, b)) =>
        assert s == Around([s[0]] + a, c, b);
        assert NoChar([s[0]] + a, c) by {
          forall k | 0 <= k < |[s[0]] + a| ensures ([s[0]] + a)[k] != c {
            if k > 0 { assert ([s[0]] + a)[k] == a[k - 1]; }
          }
        }
        Some(([s[0]] + a, b))
  }

  /** Splitting at a character the left part does not hold recovers both parts. */
  lemma {:induction false} SplitAtAround(a: string, c: char, b: string)
    requires NoChar(a, c)
    ensures SplitAt(Around(a, c, b), c) == Some((a, b))
  {
    var s := Around(a, c, b);
    if a != [] {
      assert s[0] == a[0] && a[0] != c;
      assert s[1..] == Around(a[1..], c, b);
      assert NoChar(a[1..], c) by {
        forall k | 0 <= k < |a[1..]| ensures a[1..][k] != c { assert a[1..][k] == a[k + 1]; }
      }
      SplitAtAround(a[1..], c, b);
      assert [a[0]] + a[1..] == a;
    } else {
      assert s[1..] == b;
    }
  }

  /**
   * Reads the fields back from a URL by the format's delimiters: "+" after the driver,
   * "://" after the dialect, ":" after the username, "@" after the password, ":" after the
   * host and "/" after the port.
   */
  function ParseUrl(url: string): Option<UrlParts> {
    match SplitAt(url, '+')
    case None => None
    case Some((driver, r1)) =>
      match SplitAt(r1, ':')
      case None => None
      case Some((dialect, r2)) =>
        if |r2| < 2 || r2[0] != '/' || r2[1] != '/' then None
        else
          match SplitAt(r2[2..], ':')
          case None => None
          case Some((username, r3)) =>
            match SplitAt(r3, '@')
            case None => None
            case Some((password, r4)) =>
              match SplitAt(r4, ':')
              case None => None
              case Some((host, r5)) =>
                match SplitAt(r5, '/')
                case None => None
                case Some((port, database)) =>
                  Some(UrlParts(driver, dialect, username, password, host, port, database))
  }

  /** No field holds the delimiter that ends it. */
  predicate Delimited(p: UrlParts) {
    NoChar(p.driver, '+') && NoChar(p.dialect, ':') && NoChar(p.username, ':')
    && NoChar(p.password, '@') && NoChar(p.host, ':') && NoChar(p.port, '/')
  }

  /** The format can be read back whenever no field holds its own delimiter. */
  lemma {:induction false} ParseFormat(p: UrlParts)
    requires Delimited(p)
    ensures ParseUrl(Format(p)) == Some(p)
  {
    var r5 := Around(p.port, '/', p.database);
    var r4 := Around(p.host, ':', r5);
    var r3 := Around(p.password, '@', r4);
    var r2b := Around(p.username, ':', r3);
    var r1 := Around(p.dialect, ':', "//" + r2b);
    SplitAtAround(p.driver, '+', r1);
    SplitAtAround(p.dialect, ':', "//" + r2b);
    assert ("//" + r2b)[2..] == r2b;
    SplitAtAround(p.username, ':', r3);
    SplitAtAround(p.password, '@', r4);
    SplitAtAround(p.host, ':', r5);
    SplitAtAround(p.port, '/', p.database);
  }

  /**
   * For the supported driver, a URL whose fields hold no delimiter reads back as the given
   * fields with their defaults: dialect psycopg2, port 5432 and database postgres when absent.
   */
  lemma {:induction false} UrlManagerReadsBack(kwargs: Kwargs)
    requires Supported(kwargs) && Delimited(Fields(kwargs))
    ensures ParseUrl(UrlManager(kwargs).value) == Some(Fields(kwargs))
    ensures Fields(kwargs).driver == "postgresql"
    ensures "dialect" !in kwargs ==> Fields(kwargs).dialect == "psycopg2"
    ensures "port" !in kwargs ==> Fields(kwargs).port == "5432"
    ensures "database" !in kwargs ==> Fields(kwargs).database == "postgres"
  {
    ParseFormat(Fields(kwargs));
    DefaultPortText();
  }

  /** The default port renders as "5432". */
  lemma {:induction false} DefaultPortText()
    ensures Render(Integer(5432)) == "5432"
  {
    assert NaturalString(5) == "5";
    assert NaturalString(54) == "54";
    assert NaturalString(543) == "543";
  }

  /**
   * The username and password go in verbatim, so the URL is not URL-safe: two different
   * credential pairs give the same URL, and no reader can tell them apart.
   */
  lemma {:induction false} CredentialsCollide(k1: Kwargs, k2: Kwargs)
    requires k1 == map["drivername" := Str("postgresql"), "username" := Str("a:b"), "password" := Str("c")]
    requires k2 == map["drivername" := Str("postgresql"), "username" := Str("a"), "password" := Str("b:c")]
    ensures k1 != k2 && UrlManager(k1) == UrlManager(k2)
  {
    assert k1["username"] != k2["username"];
    var f := Fields(k1);
    assert f.username == "a:b" && f.password == "c";
    assert Fields(k2) == f.(username := "a", password := "b:c");
    ColonMoves(f, "a", "b", "c");
    assert "a" + ":" + "b" == "a:b" && "b" + ":" + "c" == "b:c";
  }

  /** A colon can move from the end of the username to the start of the password unseen. */
  lemma {:induction false} ColonMoves(f: UrlParts, a: string, b: string, c: string)
    ensures Format(f.(username := a + ":" + b, password := c)) == Format(f.(username := a, password := b + ":" + c))
  {
    var tail := Around(f.host, ':', Around(f.port, '/', f.database));
    assert Around(a + ":" + b, ':', Around(c, '@', tail)) == Around(a, ':', Around(b + ":" + c, '@', tail));
  }

  // ---------------------------------------------------------------------------------------
  // The URL-safe variant: credentials passed through `urllib.parse.quote_plus`
  // ---------------------------------------------------------------------------------------

  /** The bytes `quote_plus` keeps as they are: ASCII letters, digits and `_.-~`. */
  predicate Unreserved(b: Utf8.byte) {
    ('A' as int <= b as int <= 'Z' as int) || ('a' as int <= b as int <= 'z' as int)
    || ('0' as int <= b as int <= '9' as int)
    || b as int == '_' as int || b as int == '.' as int || b as int == '-' as int || b as int == '~' as int
  }

  const UpperHex: string := "0123456789ABCDEF"

  /** One byte as `quote_plus` writes it: kept, "+" for a space, else "%" and two hex digits. */
  function QuoteByte(b: Utf8.byte): (r: string)
    ensures 1 <= |r| <= 3
  {
    if Unreserved(b) then [b as int as char]
    else if b == 0x20 then "+"
    else ['%', UpperHex[b / 16], UpperHex[b % 16]]
  }

  function QuoteBytes(bs: seq<Utf8.byte>): string {
    if bs == [] then [] else QuoteByte(bs[0]) + QuoteBytes(bs[1..])
  }

  /** `quote_plus(s)`: the UTF-8 bytes of `s`, each quoted. */
  function QuotePlus(s: string): string {
    QuoteBytes(Utf8.Encode(s))
  }

  /** The value of a hex digit, either case, as `unquote` reads it. */
  function HexDigitValue(c: char): Option<nat> {
    if '0' <= c <= '9' then Some(c as int - '0' as int)
    else if 'A' <= c <= 'F' then Some(c as int - 'A' as int + 10)
    else if 'a' <= c <= 'f' then Some(c as int - 'a' as int + 10)
    else None
  }

  /** `unquote_plus` down to bytes: "+" is a space, "%XY" a byte, a stray "%" stays a "%". */
  function UnquoteBytes(t: string): seq<Utf8.byte>
    decreases |t|
  {
    if t == [] then []
    else if t[0] == '+' then [0x20] + UnquoteBytes(t[1..])
    else if t[0] == '%' && |t| >= 3 && HexDigitValue(t[1]).Some? && HexDigitValue(t[2]).Some? then
      [(HexDigitValue(t[1]).value * 16 + HexDigitValue(t[2]).value) as Utf8.byte] + UnquoteBytes(t[3..])
    else Utf8.EncodeChar(t[0]) + UnquoteBytes(t[1..])
  }

  /** `unquote_plus`, reporting malformed UTF-8 instead of replacing it. */
  function UnquotePlus(t: string): Option<string> {
    Utf8.Decode(UnquoteBytes(t))
  }

  lemma {:induction false} UpperHexValue(d: nat)
    requires d < 16
    ensures HexDigitValue(UpperHex[d]) == Some(d)
  {
  }

  /** Unquoting reads one quoted byte back, whatever follows it. */
  lemma {:induction false} UnquoteQuoteByte(b: Utf8.byte, rest: string)
    ensures UnquoteBytes(QuoteByte(b) + rest) == [b] + UnquoteBytes(rest)
  {
    if Unreserved(b) || b == 0x20 {
      UnquoteKeptByte(b, rest);
    } else {
      UnquoteEscapedByte(b, rest);
    }
  }

  lemma {:induction false} UnquoteKeptByte(b: Utf8.byte, rest: string)
    requires Unreserved(b) || b == 0x20
    ensures UnquoteBytes(QuoteByte(b) + rest) == [b] + UnquoteBytes(rest)
  {
    var t := QuoteByte(b) + rest;
    assert t[1..] == rest;
  }

  lemma {:induction false} UnquoteEscapedByte(b: Utf8.byte, rest: string)
    requires !Unreserved(b) && b != 0x20
    ensures UnquoteBytes(QuoteByte(b) + rest) == [b] + UnquoteBytes(rest)
  {
    var t := QuoteByte(b) + rest;
    EscapedDigits(b, rest);
    assert t[3..] == rest;
  }

  /** The two digits after the "%" read back as the byte. */
  lemma {:induction false} EscapedDigits(b: Utf8.byte, rest: string)
    requires !Unreserved(b) && b != 0x20
    ensures var t := QuoteByte(b) + rest;
            |t| >= 3 && t[0] == '%' && HexDigitValue(t[1]).Some? && HexDigitValue(t[2]).Some?
            && (HexDigitValue(t[1]).value * 16 + HexDigitValue(t[2]).value) as Utf8.byte == b
  {
    var hi, lo := (b / 16) as nat, (b % 16) as nat;
    UpperHexValue(hi);
    UpperHexValue(lo);
    assert (hi * 16 + lo) as Utf8.byte == b;
  }

  lemma {:induction false} UnquoteQuoteBytes(bs: seq<Utf8.byte>)
    ensures UnquoteBytes(QuoteBytes(bs)) == bs
  {
    if bs != [] {
      UnquoteQuoteByte(bs[0], QuoteBytes(bs[1..]));
      UnquoteQuoteBytes(bs[1..]);
      assert [bs[0]] + bs[1..] == bs;
    }
  }

  /** `unquote_plus(quote_plus(s)) == s`. */
  lemma {:induction false} UnquoteQuotePlus(s: string)
    ensures UnquotePlus(QuotePlus(s)) == Some(s)
  {
    UnquoteQuoteBytes(Utf8.Encode(s));
    Utf8.DecodeEncode(s);
  }

  /** Every character `quote_plus` writes is an unreserved one, "+" or "%". */
  predicate QuotedChar(c: char) {
    ('A' <= c <= 'Z') || ('a' <= c <= 'z') || ('0' <= c <= '9')
    || c == '_' || c == '.' || c == '-' || c == '~' || c == '+' || c == '%'
  }

  predicate AllQuoted(t: string) {
    forall k :: 0 <= k < |t| ==> QuotedChar(t[k])
  }

  lemma {:induction false} QuoteBytesQuoted(bs: seq<Utf8.byte>)
    ensures AllQuoted(QuoteBytes(bs))
  {
    if bs != [] {
      QuoteBytesQuoted(bs[1..]);
      QuoteByteQuoted(bs[0]);
      AllQuotedAppend(QuoteByte(bs[0]), QuoteBytes(bs[1..]));
    }
  }

  lemma {:induction false} QuoteByteQuoted(b: Utf8.byte)
    ensures AllQuoted(QuoteByte(b))
  {
  }

  lemma {:induction false} AllQuotedAppend(a: string, b: string)
    requires AllQuoted(a) && AllQuoted(b)
    ensures AllQuoted(a + b)
  {
    forall k | 0 <= k < |a + b| ensures QuotedChar((a + b)[k]) {
      if k >= |a| { assert (a + b)[k] == b[k - |a|]; }
    }
  }

  /** Quoted text holds none of the URL's delimiters ":", "@" and "/". */
  lemma {:induction false} QuotePlusDelimited(s: string)
    ensures NoChar(QuotePlus(s), ':') && NoChar(QuotePlus(s), '@') && NoChar(QuotePlus(s), '/')
  {
    QuoteBytesQuoted(Utf8.Encode(s));
  }

  /** The fields with the username and password quoted. */
  function SafeFields(kwargs: Kwargs): UrlParts {
    var f := Fields(kwargs);
    f.(username := QuotePlus(f.username), password := QuotePlus(f.password))
  }

  /** `url_manager` with `quote_plus` applied to the credentials, as its "url safe" promise needs. */
  function SafeUrlManager(kwargs: Kwargs): (r: Result<string, UrlError>)
    ensures r.Success? <==> Supported(kwargs)
    ensures r.Failure? ==> r.error == KeyError(UnsupportedMessage(kwargs))
  {
    if Get(kwargs, "drivername", Null) == Str("postgresql") then
      Success(Format(SafeFields(kwargs)))
    else
      Failure(KeyError(UnsupportedMessage(kwargs)))
  }

  /** The unquoted fields hold no delimiter of their own. */
  predicate HostDelimited(f: UrlParts) {
    NoChar(f.dialect, ':') && NoChar(f.host, ':') && NoChar(f.port, '/')
  }

  /** Whatever the credentials hold, the safe URL reads back and unquotes to them. */
  lemma {:induction false} SafeUrlReadsBack(kwargs: Kwargs)
    requires Supported(kwargs) && HostDelimited(Fields(kwargs))
    ensures ParseUrl(SafeUrlManager(kwargs).value) == Some(SafeFields(kwargs))
    ensures UnquotePlus(SafeFields(kwargs).username) == Some(Fields(kwargs).username)
    ensures UnquotePlus(SafeFields(kwargs).password) == Some(Fields(kwargs).password)
  {
    var f := Fields(kwargs);
    assert f.driver == "postgresql";
    QuotePlusDelimited(f.username);
    QuotePlusDelimited(f.password);
    ParseFormat(SafeFields(kwargs));
    UnquoteQuotePlus(f.username);
    UnquoteQuotePlus(f.password);
  }

  /** So two argument sets that give the same safe URL carry the same credentials. */
  lemma {:induction false} SafeUrlCredentialsDistinct(k1: Kwargs, k2: Kwargs)
    requires Supported(k1) && HostDelimited(Fields(k1))
    requires Supported(k2) && HostDelimited(Fields(k2))
    requires SafeUrlManager(k1) == SafeUrlManager(k2)
    ensures Fields(k1).username == Fields(k2).username
    ensures Fields(k1).password == Fields(k2).password
  {
    SafeUrlReadsBack(k1);
    SafeUrlReadsBack(k2);
  }

  // ---------------------------------------------------------------------------------------
  // The lock-table seeding of ASMImpl.run
  // ---------------------------------------------------------------------------------------

  /** A row of the lock table `ASMDeployLock`, by the columns the seeding sets. */
  datatype LockRow = LockRow(locked: bool, lockedby: string)

  /** The row `_populate_lock_table` adds to an empty lock table. */
  const SeedRow: LockRow := LockRow(false, "root")

  /** An exception from the session: a `SQLAlchemyError`, or any other exception. */
  datatype ErrorKind = StoreError | OtherError

  /** Which session call raises, if any: the database is not modelled, so this is an input. */
  datatype Fault = Healthy | FailsOnCount(kind: ErrorKind) | FailsOnCommit(kind: ErrorKind)

  /** The session calls, in the order they are made. */
  datatype Call = Count | Add(row: LockRow) | Commit | Rollback | Close

  /** What the session holds: committed rows, rows added but not committed, and its calls. */
  datatype SessionState = SessionState(committed: seq<LockRow>, pending: seq<LockRow>, closed: bool, calls: seq<Call>)

  /** `session.query(ASMDeployLock).count()`: autoflush makes pending rows count too. */
  function CountSpec(st: SessionState, fault: Fault): (SessionState, Result<nat, ErrorKind>) {
    var next := st.(calls := st.calls + [Count]);
    if fault.FailsOnCount? then (next, Failure(fault.kind)) else (next, Success(|st.committed| + |st.pending|))
  }

  function AddSpec(st: SessionState, row: LockRow): SessionState {
    st.(pending := st.pending + [row], calls := st.calls + [Add(row)])
  }

  /** `session.commit()`: the pending rows become committed, unless the commit raises. */
  function CommitSpec(st: SessionState, fault: Fault): (SessionState, Option<ErrorKind>) {
    var next := st.(calls := st.calls + [Commit]);
    if fault.FailsOnCommit? then (next, Some(fault.kind))
    else (next.(committed := st.committed + st.pending, pending := []), None)
  }

  function RollbackSpec(st: SessionState): SessionState {
    st.(pending := [], calls := st.calls + [Rollback])
  }

  /** `session.close()`: uncommitted rows are dropped with the transaction. */
  function CloseSpec(st: SessionState): SessionState {
    st.(pending := [], closed := true, calls := st.calls + [Close])
  }

  /** `_populate_lock_table`: count, and add the seed row when the count is zero. */
  function PopulateSpec(st: SessionState, fault: Fault): (SessionState, Option<ErrorKind>) {
    var (counted, n) := CountSpec(st, fault);
    match n
    case Failure(kind) => (counted, Some(kind))
    case Success(count) => if !(count > 0) then (AddSpec(counted, SeedRow), None) else (counted, None)
  }

  /**
   * `run`: populate and commit; on a `SQLAlchemyError` roll back and raise it again; close the
   * session in `finally`. Other exceptions skip the rollback but not the close.
   */
  function RunSpec(st: SessionState, fault: Fault): (SessionState, Option<ErrorKind>) {
    var (populated, e1) := PopulateSpec(st, fault);
    var (committed, e2) := if e1.Some? then (populated, e1) else CommitSpec(populated, fault);
    var handled := if e2 == Some(StoreError) then RollbackSpec(committed) else committed;
    (CloseSpec(handled), e2)
  }

  /** A session as `sessionmaker` hands it out: the table's rows, nothing pending, no calls. */
  function Fresh(table: seq<LockRow>): SessionState {
    SessionState(table, [], false, [])
  }

  /** Seeding adds exactly one unlocked row owned by "root" when the table is empty, else none. */
  lemma {:induction false} PopulateSeedsOnlyEmpty(st: SessionState, fault: Fault)
    requires !fault.FailsOnCount?
    ensures PopulateSpec(st, fault).1.None?
    ensures PopulateSpec(st, fault).0.committed == st.committed
    ensures PopulateSpec(st, fault).0.pending
         == if st.committed == [] && st.pending == [] then [LockRow(false, "root")] else st.pending
  {
  }

  /** A healthy run leaves a non-empty, committed lock table and a closed session. */
  lemma {:induction false} RunHealthy(table: seq<LockRow>)
    ensures RunSpec(Fresh(table), Healthy).1.None?
    ensures RunSpec(Fresh(table), Healthy).0.committed == if table == [] then [SeedRow] else table
    ensures |RunSpec(Fresh(table), Healthy).0.committed| > 0
    ensures RunSpec(Fresh(table), Healthy).0.closed
  {
  }

  /** Seeding is idempotent: a second healthy run over the seeded table adds no row. */
  lemma {:induction false} RunIdempotent(table: seq<LockRow>)
    ensures var once := RunSpec(Fresh(table), Healthy).0.committed;
            RunSpec(Fresh(once), Healthy).0.committed == once
  {
    RunHealthy(table);
    RunHealthy(RunSpec(Fresh(table), Healthy).0.committed);
  }

  /**
   * A `SQLAlchemyError` from the count or the commit is raised again after a rollback: nothing
   * is committed, nothing stays pending, and the session is closed last.
   */
  lemma {:induction false} RunStoreError(st: SessionState, fault: Fault)
    requires fault == FailsOnCount(StoreError) || fault == FailsOnCommit(StoreError)
    ensures RunSpec(st, fault).1 == Some(StoreError)
    ensures RunSpec(st, fault).0.committed == st.committed
    ensures RunSpec(st, fault).0.pending == []
    ensures |RunSpec(st, fault).0.calls| >= 2
    ensures RunSpec(st, fault).0.calls[|RunSpec(st, fault).0.calls| - 2..] == [Rollback, Close]
  {
  }

  /** No call in `calls` is a rollback. */
  predicate NoRollback(calls: seq<Call>) {
    forall k :: 0 <= k < |calls| ==> calls[k] != Rollback
  }

  /** Any other exception propagates without a rollback; the session is still closed. */
  lemma {:induction false} RunOtherError(st: SessionState, fault: Fault)
    requires fault == FailsOnCount(OtherError) || fault == FailsOnCommit(OtherError)
    ensures RunSpec(st, fault).1 == Some(OtherError)
    ensures RunSpec(st, fault).0.committed == st.committed
    ensures |RunSpec(st, fault).0.calls| >= |st.calls| && NoRollback(RunSpec(st, fault).0.calls[|st.calls|..])
    ensures RunSpec(st, fault).0.closed
  {
  }

  /** On every path the last call is `close()`. */
  lemma {:induction false} RunAlwaysCloses(st: SessionState, fault: Fault)
    ensures RunSpec(st, fault).0.closed
    ensures RunSpec(st, fault).0.calls != [] && RunSpec(st, fault).0.calls[|RunSpec(st, fault).0.calls| - 1] == Close
  {
  }

  /** The session object that `ASMImpl` drives; its calls update it in place. */
  class Session {
    var committed: seq<LockRow>
    var pending: seq<LockRow>
    var closed: bool
    var calls: seq<Call>
    const fault: Fault

    constructor(table: seq<LockRow>, fault: Fault)
      ensures State() == Fresh(table) && this.fault == fault
    {
      committed := table;
      pending := [];
      closed := false;
      calls := [];
      this.fault := fault;
    }

    function State(): SessionState
      reads this
    {
      SessionState(committed, pending, closed, calls)
    }

    method CountRows() returns (r: Result<nat, ErrorKind>)
      modifies this
      ensures (State(), r) == CountSpec(old(State()), fault)
    {
      calls := calls + [Count];
      if fault.FailsOnCount? {
        r := Failure(fault.kind);
      } else {
        r := Success(|committed| + |pending|);
      }
    }

    method AddRow(row: LockRow)
      modifies this
      ensures State() == AddSpec(old(State()), row)
    {
      pending := pending + [row];
      calls := calls + [Add(row)];
    }

    method CommitRows() returns (e: Option<ErrorKind>)
      modifies this
      ensures (State(), e) == CommitSpec(old(State()), fault)
    {
      calls := calls + [Commit];
      if fault.FailsOnCommit? {
        e := Some(fault.kind);
      } else {
        committed := committed + pending;
        pending := [];
        e := None;
      }
    }

    method RollbackRows()
      modifies this
      ensures State() == RollbackSpec(old(State()))
    {
      pending := [];
      calls := calls + [Rollback];
    }

    method CloseSession()
      modifies this
      ensures State() == CloseSpec(old(State()))
    {
      pending := [];
      closed := true;
      calls := calls + [Close];
    }
  }

  /** `ASMImpl`, reduced to the session it drives. */
  class Deployment {
    const session: Session

    constructor(session: Session)
      ensures this.session == session
    {
      this.session := session;
    }

    /** `_populate_lock_table`. */
    method PopulateLockTable() returns (e: Option<ErrorKind>)
      modifies session
      ensures (session.State(), e) == PopulateSpec(old(session.State()), session.fault)
    {
      var n := session.CountRows();
      match n
      case Failure(kind) =>
        e := Some(kind);
      case Success(count) =>
        if !(count > 0) {
          session.AddRow(SeedRow);
        }
        e := None;
    }

    /** `run`: the error it raises, if any. */
    method Run() returns (e: Option<ErrorKind>)
      modifies session
      ensures (session.State(), e) == RunSpec(old(session.State()), session.fault)
    {
      e := PopulateLockTable();
      if e.None? {
        e := session.CommitRows();
      }
      if e == Some(StoreError) {
        session.RollbackRows();
      }
      session.CloseSession();
    }
  }
}
