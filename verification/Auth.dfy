// Token revocation: the pruned, persisted revocation list against permanent rejection.
module Auth {
  import opened Common

  datatype Claims = Claims(
    subject: string, issuer: string, issuedAt: int, expiresAt: int, roles: seq<string>, jti: string, extra: string)

  // Base64url, JSON and ML-DSA under the authority's key. header is the encoded header that Issue writes;
  // headerOk says that a header decodes and carries the right type and version; jtiAndExp reads the two
  // fields that Revoke needs.
  datatype Suite = Suite(
    header: string, headerOk: string -> bool,
    payload: Claims -> string, claims: string -> Option<Claims>, jtiAndExp: string -> Option<(string, int)>,
    sigText: Bytes -> string, signature: string -> Option<Bytes>,
    sign: string -> Bytes, verify: (string, Bytes) -> bool)

  // Base64url text has no dots and decodes to what was encoded, and signatures verify.
  ghost predicate Correct(d: Suite) {
    && d.headerOk(d.header) && '.' !in d.header
    && (forall c :: d.claims(d.payload(c)) == Some(c) && '.' !in d.payload(c))
    && (forall b :: d.signature(d.sigText(b)) == Some(b) && '.' !in d.sigText(b))
    && (forall m :: d.verify(m, d.sign(m)))
  }

  // Both decoders read the same JSON fields.
  ghost predicate Consistent(d: Suite) {
    forall p :: d.claims(p).Some? ==> d.jtiAndExp(p) == Some((d.claims(p).value.jti, d.claims(p).value.expiresAt))
  }

  // ---------- Token strings ----------

  function DotAt(s: string): (i: nat)
    ensures i <= |s| && (i < |s| ==> s[i] == '.')
  {
    if s == "" || s[0] == '.' then 0 else 1 + DotAt(s[1..])
  }

  // strings.Split(s, ".")
  function Split(s: string): (parts: seq<string>)
    ensures parts != []
    decreases |s|
  {
    var i := DotAt(s);
    if i == |s| then [s] else [s[..i]] + Split(s[i + 1..])
  }

  // strings.SplitN(s, ".", n): the last part is what remains
  function SplitN(s: string, n: nat): (parts: seq<string>)
    requires n > 0
    ensures 0 < |parts| <= n
    decreases n
  {
    var i := DotAt(s);
    if n == 1 || i == |s| then [s] else [s[..i]] + SplitN(s[i + 1..], n - 1)
  }

  lemma {:induction false} SplitsAgree(s: string, n: nat)
    requires n > 0 && |Split(s)| <= n
    ensures SplitN(s, n) == Split(s)
    decreases n
  {
    var i := DotAt(s);
    if i < |s| {
      SplitsAgree(s[i + 1..], n - 1);
    }
  }

  lemma {:induction false} DotSkips(a: string, rest: string)
    requires '.' !in a
    ensures DotAt(a + "." + rest) == |a| && DotAt(a) == |a|
    decreases |a|
  {
    if a != "" {
      assert (a + "." + rest)[1..] == a[1..] + "." + rest;
      DotSkips(a[1..], rest);
    }
  }

  lemma {:induction false} SplitFirst(a: string, rest: string)
    requires '.' !in a
    ensures Split(a) == [a] && Split(a + "." + rest) == [a] + Split(rest)
  {
    var s := a + "." + rest;
    DotSkips(a, rest);
    assert s[..|a|] == a && s[|a| + 1..] == rest;
  }

  lemma {:induction false} SplitThree(a: string, b: string, c: string)
    requires '.' !in a && '.' !in b && '.' !in c
    ensures Split(a + "." + b + "." + c) == [a, b, c]
  {
    hide Split;
    SplitFirst(a, b + "." + c);
    SplitFirst(b, c);
    SplitFirst(c, "");
    assert a + "." + b + "." + c == a + "." + (b + "." + c);
  }

  lemma {:induction false} BeforeDot(s: string)
    ensures '.' !in s[..DotAt(s)]
    decreases |s|
  {
    if s != "" && s[0] != '.' {
      BeforeDot(s[1..]);
      assert s[..DotAt(s)] == [s[0]] + s[1..][..DotAt(s[1..])];
    }
  }

  lemma {:induction false} PartsHaveNoDots(s: string)
    ensures forall i :: 0 <= i < |Split(s)| ==> '.' !in Split(s)[i]
    decreases |s|
  {
    var i := DotAt(s);
    BeforeDot(s);
    if i == |s| {
      assert s[..i] == s;
    } else {
      PartsHaveNoDots(s[i + 1..]);
    }
  }

  function Join(parts: seq<string>): string
    requires parts != []
  {
    if |parts| == 1 then parts[0] else parts[0] + "." + Join(parts[1..])
  }

  lemma {:induction false} JoinCons(a: string, parts: seq<string>)
    requires parts != []
    ensures Join([a] + parts) == a + "." + Join(parts)
  {
    assert ([a] + parts)[1..] == parts;
  }

  // Splitting takes a string apart at all its dots: joined again, the parts, which have no dots, give the string.
  lemma {:induction false} SplitExactly(s: string)
    ensures Join(Split(s)) == s && forall i :: 0 <= i < |Split(s)| ==> '.' !in Split(s)[i]
    decreases |s|
  {
    PartsHaveNoDots(s);
    var i := DotAt(s);
    if i < |s| {
      SplitExactly(s[i + 1..]);
      JoinCons(s[..i], Split(s[i + 1..]));
      assert s == s[..i] + "." + s[i + 1..];
    }
  }

  // Splitting into at most n parts leaves what remains in the last one.
  lemma {:induction false} SplitNExactly(s: string, n: nat)
    requires n > 0
    ensures Join(SplitN(s, n)) == s && |SplitN(s, n)| == (if |Split(s)| <= n then |Split(s)| else n)
    decreases n
  {
    var i := DotAt(s);
    if n > 1 && i < |s| {
      SplitNExactly(s[i + 1..], n - 1);
      JoinCons(s[..i], SplitN(s[i + 1..], n - 1));
      assert s == s[..i] + "." + s[i + 1..];
      hide Join;
    }
  }

  lemma {:induction false} EarlyPartsHaveNoDots(s: string, n: nat)
    requires n > 0
    ensures forall i :: 0 <= i < |SplitN(s, n)| - 1 ==> '.' !in SplitN(s, n)[i]
    decreases n
  {
    var i := DotAt(s);
    BeforeDot(s);
    if n > 1 && i < |s| {
      EarlyPartsHaveNoDots(s[i + 1..], n - 1);
    }
  }

  // ---------- Issuing ----------

  function Issue(d: Suite, issuer: string, ttl: int, subject: string, roles: seq<string>, extra: string,
                 jti: string, now: Time): Option<(Claims, string)>
  {
    if subject == "" || roles == [] then None
    else
      var c := Claims(subject, issuer, now / SECOND, (now + ttl) / SECOND, roles, jti, extra);
      var input := d.header + "." + d.payload(c);
      Some((c, input + "." + d.sigText(d.sign(input))))
  }

  // The claims carry what was asked for, and the token lives from the second of its issue for ttl.
  lemma {:induction false} IssueExactly(
    d: Suite, issuer: string, ttl: int, subject: string, roles: seq<string>, extra: string, jti: string, made: Time)
    ensures
      var r := Issue(d, issuer, ttl, subject, roles, extra, jti, made);
      && (r.Some? <==> subject != "" && |roles| > 0)
      && (r.Some? ==>
            var c := r.value.0;
            && c.subject == subject && c.issuer == issuer && c.roles == roles && c.extra == extra && c.jti == jti
            && c.issuedAt * SECOND <= made < c.issuedAt * SECOND + SECOND
            && forall t: int :: t <= c.expiresAt <==> t * SECOND <= made + ttl)
  {}

  // ---------- Verifying and extracting ----------

  // Everything that Verify checks before the revocation list: format, signature, expiry, a token ID
  function Authentic(d: Suite, token: string, now: int): Option<Claims> {
    var parts := Split(token);
    if |parts| != 3 || !d.headerOk(parts[0]) then None
    else
      var c, sig := d.claims(parts[1]), d.signature(parts[2]);
      if c.None? || sig.None? || !d.verify(parts[0] + "." + parts[1], sig.value) then None
      else if now > c.value.expiresAt || c.value.jti == "" then None
      else c
  }

  function Verify(d: Suite, revoked: map<string, int>, token: string, now: int): Option<Claims> {
    var c := Authentic(d, token, now);
    if c.Some? && c.value.jti in revoked then None else c
  }

  // Verify accepts exactly the strings of three parts with a good header, a signature over the first two parts that
  // verifies, and claims with an ID that are neither expired nor revoked.
  lemma {:induction false} VerifyExactly(d: Suite, revoked: map<string, int>, token: string, now: int, c: Claims)
    ensures
      var parts := Split(token);
      Verify(d, revoked, token, now) == Some(c) <==>
        && |parts| == 3 && d.headerOk(parts[0]) && d.claims(parts[1]) == Some(c)
        && d.signature(parts[2]).Some? && d.verify(parts[0] + "." + parts[1], d.signature(parts[2]).value)
        && now <= c.expiresAt && |c.jti| > 0 && c.jti !in revoked
  {
    hide Split;
  }

  // An issued token verifies, to the claims it was issued for, exactly until it expires or is revoked.
  lemma {:induction false} IssuedVerifies(
    d: Suite, issuer: string, ttl: int, subject: string, roles: seq<string>, extra: string, jti: string, made: Time,
    revoked: map<string, int>, now: int)
    requires Correct(d) && Issue(d, issuer, ttl, subject, roles, extra, jti, made).Some?
    ensures
      var (c, token) := Issue(d, issuer, ttl, subject, roles, extra, jti, made).value;
      && c.subject == subject && c.roles == roles && c.jti == jti
      && Verify(d, revoked, token, now)
         == if now * SECOND <= made + ttl && jti != "" && jti !in revoked then Some(c) else None
  {
    IssueExactly(d, issuer, ttl, subject, roles, extra, jti, made);
    var (c, token) := Issue(d, issuer, ttl, subject, roles, extra, jti, made).value;
    var input := d.header + "." + d.payload(c);
    var sig := d.sign(input);
    assert d.claims(d.payload(c)) == Some(c) && d.signature(d.sigText(sig)) == Some(sig) && d.verify(input, sig);
    SplitThree(d.header, d.payload(c), d.sigText(sig));
    assert token == d.header + "." + d.payload(c) + "." + d.sigText(sig);
  }

  // The signature of the presented token is no forgery: the authority has signed only issued claims.
  ghost predicate NotForged(d: Suite, issued: set<Claims>, token: string) {
    var parts := Split(token);
    |parts| == 3 && d.signature(parts[2]).Some? && d.verify(parts[0] + "." + parts[1], d.signature(parts[2]).value) ==>
      exists c :: c in issued && parts[0] + "." + parts[1] == d.header + "." + d.payload(c)
  }

  // Whatever string is presented, Verify returns only claims that were issued, are alive and are not revoked.
  lemma {:induction false} VerifiedWasIssued(
    d: Suite, issued: set<Claims>, revoked: map<string, int>, token: string, now: int)
    requires Correct(d) && NotForged(d, issued, token) && Verify(d, revoked, token, now).Some?
    ensures
      var c := Verify(d, revoked, token, now).value;
      c in issued && now <= c.expiresAt && c.jti != "" && c.jti !in revoked
  {
    var parts := Split(token);
    var c :| c in issued && parts[0] + "." + parts[1] == d.header + "." + d.payload(c);
    PartsHaveNoDots(token);
    DotSkips(parts[0], parts[1]);
    DotSkips(d.header, d.payload(c));
    var input := parts[0] + "." + parts[1];
    assert parts[1] == input[|parts[0]| + 1..] && d.payload(c) == input[|d.header| + 1..];
    assert d.claims(parts[1]) == Some(c);
  }

  // No signature is checked here.
  function ExtractJtiAndExp(d: Suite, token: string): (string, int) {
    var parts := SplitN(token, 3);
    if |parts| != 3 then ("", 0)
    else
      var r := d.jtiAndExp(parts[1]);
      if r.None? then ("", 0) else r.value
  }

  lemma {:induction false} ExtractMatches(d: Suite, token: string, now: int)
    requires Consistent(d) && Authentic(d, token, now).Some?
    ensures var c := Authentic(d, token, now).value;
            ExtractJtiAndExp(d, token) == (c.jti, c.expiresAt) && c.jti != "" && now <= c.expiresAt
  {
    SplitsAgree(token, 3);
    assert d.claims(Split(token)[1]).Some?;
  }

  // Of any string with at least two dots the middle part is read, whatever its signature; of others nothing is.
  lemma {:induction false} ExtractExactly(d: Suite, a: string, b: string, rest: string)
    requires '.' !in a && '.' !in b
    ensures ExtractJtiAndExp(d, a) == ("", 0) && ExtractJtiAndExp(d, a + "." + b) == ("", 0)
    ensures ExtractJtiAndExp(d, a + "." + b + "." + rest)
         == if d.jtiAndExp(b).None? then ("", 0) else d.jtiAndExp(b).value
  {
    var s, t := a + "." + b + "." + rest, b + "." + rest;
    assert s == a + "." + t;
    DotSkips(a, t);
    DotSkips(b, rest);
    DotSkips(a, b);
    assert s[..|a|] == a && s[|a| + 1..] == t && t[..|b|] == b && t[|b| + 1..] == rest;
    assert SplitN(t, 2) == [b] + SplitN(rest, 1);
    assert SplitN(s, 3) == [a, b, rest];
    assert (a + "." + b)[|a| + 1..] == b;
    assert |SplitN(b, 2)| == 1;
  }

  // The claims of a token are the same at all times; only expiry changes.
  lemma {:induction false} AuthenticOverTime(d: Suite, token: string, now: int, later: int)
    requires Authentic(d, token, now).Some?
    ensures Authentic(d, token, later)
         == if later > Authentic(d, token, now).value.expiresAt then None else Authentic(d, token, now)
  {}

  // ---------- The list, in memory and on disk ----------

  datatype File = Missing | Corrupt | Entries(m: map<string, int>)

  datatype State = State(revoked: map<string, int>, hasPath: bool, file: File)

  predicate Prunable(exp: int, now: int) {
    exp > 0 && exp < now
  }

  function Prune(revoked: map<string, int>, now: int): map<string, int> {
    map jti | jti in revoked && !Prunable(revoked[jti], now) :: revoked[jti]
  }

  // saved says whether the write to disk succeeded; the code ignores a failure.
  datatype Event =
    | Revoke(token: string, saved: bool)
    | PruneExpired(now: int, saved: bool)
    | SetRevocationFile(now: int)
    | Restart

  function Persist(s: State, saved: bool): State {
    if s.hasPath && saved then s.(file := Entries(s.revoked)) else s
  }

  function RevokeIn(d: Suite, revoked: map<string, int>, token: string): map<string, int> {
    var (jti, exp) := ExtractJtiAndExp(d, token);
    if jti == "" then revoked else revoked[jti := exp]
  }

  function Next(d: Suite, s: State, e: Event): State {
    match e
    case Revoke(token, saved) =>
      if ExtractJtiAndExp(d, token).0 == "" then s
      else Persist(s.(revoked := RevokeIn(d, s.revoked, token)), saved)
    case PruneExpired(now, saved) => Persist(s.(revoked := Prune(s.revoked, now)), saved)
    case SetRevocationFile(now) =>
      if s.file.Corrupt? then s
      else if s.file.Missing? then s.(hasPath := true)
      else s.(revoked := s.revoked + Prune(s.file.m, now), hasPath := true)
    case Restart => State(map[], false, s.file)
  }

  function Run(d: Suite, s: State, events: seq<Event>): State
    decreases |events|
  {
    if events == [] then s else Next(d, Run(d, s, events[..|events| - 1]), events[|events| - 1])
  }

  // What each event does to an ID in the list, to the use of the file, and to the file
  lemma {:induction false} EventEffect(d: Suite, s: State, e: Event, jti: string)
    requires jti != ""
    ensures
      var t := Next(d, s, e);
      match e
      case Revoke(token, saved) =>
        var (id, exp) := ExtractJtiAndExp(d, token);
        && (id == jti ==> jti in t.revoked && t.revoked[jti] == exp)
        && (id != jti ==> (jti in t.revoked <==> jti in s.revoked))
        && (id != jti && jti in s.revoked ==> t.revoked[jti] == s.revoked[jti])
        && t.hasPath == s.hasPath
        && t.file == (if id != "" && s.hasPath && saved then Entries(t.revoked) else s.file)
      case PruneExpired(now, saved) =>
        && (jti in t.revoked <==> jti in s.revoked && !(0 < s.revoked[jti] < now))
        && (jti in t.revoked ==> t.revoked[jti] == s.revoked[jti])
        && t.hasPath == s.hasPath && t.file == (if s.hasPath && saved then Entries(t.revoked) else s.file)
      case SetRevocationFile(now) =>
        var loaded := s.file.Entries? && jti in s.file.m && !(0 < s.file.m[jti] < now);
        && (loaded ==> jti in t.revoked && t.revoked[jti] == s.file.m[jti])
        && (!loaded ==> (jti in t.revoked <==> jti in s.revoked))
        && (!loaded && jti in s.revoked ==> t.revoked[jti] == s.revoked[jti])
        && t.hasPath == (s.hasPath || !s.file.Corrupt?) && t.file == s.file
      case Restart => jti !in t.revoked && !t.hasPath && t.file == s.file
  {
    hide ExtractJtiAndExp;
  }

  // The clock when the events have happened, if it started at start and never ran backwards
  function Clock(events: seq<Event>, start: int): int
    decreases |events|
  {
    if events == [] then start
    else match events[|events| - 1]
      case PruneExpired(now, _) => now
      case SetRevocationFile(now) => now
      case _ => Clock(events[..|events| - 1], start)
  }

  predicate Monotone(events: seq<Event>, start: int)
    decreases |events|
  {
    events == [] ||
    (Monotone(events[..|events| - 1], start) && Clock(events[..|events| - 1], start) <= Clock(events, start))
  }

  // ---------- What keeps a token out ----------

  // A stored expiry that prunes no earlier than the token expires
  predicate Outlasts(stored: int, exp: int) {
    stored <= 0 || stored >= exp
  }

  predicate Safe(revoked: map<string, int>, jti: string, exp: int) {
    jti in revoked && Outlasts(revoked[jti], exp)
  }

  // Revoking this string does not shorten the stored life of jti.
  predicate Harmless(d: Suite, token: string, jti: string, exp: int) {
    ExtractJtiAndExp(d, token).0 == jti ==> Outlasts(ExtractJtiAndExp(d, token).1, exp)
  }

  lemma {:induction false} PruneKeepsSafe(revoked: map<string, int>, jti: string, exp: int, now: int)
    requires Safe(revoked, jti, exp)
    ensures now > exp || Safe(Prune(revoked, now), jti, exp)
  {}

  // Revoking any string keeps an existing revocation safe exactly when that string is harmless.
  lemma {:induction false} RevokeKeepsSafeExactly(
    d: Suite, revoked: map<string, int>, token: string, jti: string, exp: int)
    requires Safe(revoked, jti, exp) && jti != ""
    ensures Safe(RevokeIn(d, revoked, token), jti, exp) <==> Harmless(d, token, jti, exp)
  {}

  // Revoking an ID that is already listed changes nothing, in memory and on disk, if and only if the presented
  // expiry is the stored one and no write changes the file.
  lemma {:induction false} RevokeAgainExactly(d: Suite, s: State, token: string, saved: bool)
    requires ExtractJtiAndExp(d, token).0 in s.revoked && ExtractJtiAndExp(d, token).0 != ""
    ensures Next(d, s, Revoke(token, saved)) == s <==>
              && ExtractJtiAndExp(d, token).1 == s.revoked[ExtractJtiAndExp(d, token).0]
              && (!s.hasPath || !saved || s.file == Entries(s.revoked))
  {
    var (jti, exp) := ExtractJtiAndExp(d, token);
    assert RevokeIn(d, s.revoked, token)[jti] == exp;
    if exp == s.revoked[jti] {
      assert RevokeIn(d, s.revoked, token) == s.revoked;
    }
  }

  // A live token is rejected at all later times, across prunes, exactly when its entry is safe.
  lemma {:induction false} PermanentExactly(d: Suite, revoked: map<string, int>, token: string, now: int)
    requires Authentic(d, token, now).Some?
    ensures (forall prune, later :: now <= prune <= later ==> Verify(d, Prune(revoked, prune), token, later).None?)
       <==> Safe(revoked, Authentic(d, token, now).value.jti, Authentic(d, token, now).value.expiresAt)
  {
    var c := Authentic(d, token, now).value;
    var (jti, exp) := (c.jti, c.expiresAt);
    if Safe(revoked, jti, exp) {
      forall prune, later | now <= prune <= later
        ensures Verify(d, Prune(revoked, prune), token, later).None?
      {
        AuthenticOverTime(d, token, now, later);
        PruneKeepsSafe(revoked, jti, exp, prune);
      }
    } else {
      var prune := if jti in revoked && revoked[jti] >= now then revoked[jti] + 1 else now;
      AuthenticOverTime(d, token, now, prune);
      assert Verify(d, Prune(revoked, prune), token, prune).Some?;
    }
  }

  // The revocation of a live token ends early when a string is revoked that names the same
  // token ID with a small positive expiry: the next prune drops the entry and Verify accepts again.
  lemma {:induction false} ShorterExpiryReopens(
    d: Suite, revoked: map<string, int>, token: string, other: string, now: int)
    requires Authentic(d, token, now).Some? && now > 1
    requires ExtractJtiAndExp(d, other) == (Authentic(d, token, now).value.jti, 1)
    ensures Verify(d, Prune(RevokeIn(d, revoked, other), now), token, now).Some?
  {
    assert Authentic(d, token, now).value.jti != "";
  }

  // ---------- Whole runs ----------

  predicate AllHarmless(d: Suite, events: seq<Event>, jti: string, exp: int) {
    forall i :: 0 <= i < |events| && events[i].Revoke? ==> Harmless(d, events[i].token, jti, exp)
  }

  predicate KeptOut(revoked: map<string, int>, jti: string, exp: int, now: int) {
    now > exp || Safe(revoked, jti, exp)
  }

  // A file that does not parse is never used.
  predicate FileKeepsOut(f: File, jti: string, exp: int, now: int) {
    now > exp || f.Corrupt? || (f.Entries? && Safe(f.m, jti, exp))
  }

  // With its entry on disk: the file keeps the token out, and so does memory once the file is in use.
  predicate Durable(s: State, jti: string, exp: int, now: int) {
    FileKeepsOut(s.file, jti, exp, now) && (s.hasPath ==> KeptOut(s.revoked, jti, exp, now))
  }

  // Loading the file from now on does not shorten the stored life of jti.
  predicate LoadsSafely(f: File, jti: string, exp: int, now: int) {
    f.Entries? && jti in f.m ==> Outlasts(f.m[jti], exp) || Prunable(f.m[jti], now)
  }

  // In memory: the list keeps the token out, and no load shortens that.
  predicate Lasts(s: State, jti: string, exp: int, now: int) {
    Safe(s.revoked, jti, exp) && LoadsSafely(s.file, jti, exp, now)
  }

  predicate Held(s: State, jti: string, exp: int, now: int) {
    now > exp || Lasts(s, jti, exp, now)
  }

  lemma {:induction false} NextKeepsHeld(d: Suite, s: State, e: Event, jti: string, exp: int, before: int, now: int)
    requires before <= now && jti != "" && Held(s, jti, exp, before)
    requires (e.Revoke? ==> Harmless(d, e.token, jti, exp)) && !e.Restart?
    requires e.PruneExpired? || e.SetRevocationFile? ==> e.now == now
    ensures Held(Next(d, s, e), jti, exp, now)
  {
    hide ExtractJtiAndExp;
  }

  lemma {:induction false} NextKeepsDurable(d: Suite, s: State, e: Event, jti: string, exp: int, before: int, now: int)
    requires before <= now && jti != "" && Durable(s, jti, exp, before)
    requires e.Revoke? ==> Harmless(d, e.token, jti, exp)
    requires e.PruneExpired? || e.SetRevocationFile? ==> e.now == now
    ensures Durable(Next(d, s, e), jti, exp, now)
  {
    hide ExtractJtiAndExp;
  }

  lemma {:induction false} RunKeepsDurable(d: Suite, s: State, events: seq<Event>, jti: string, exp: int, start: int)
    requires jti != "" && Durable(s, jti, exp, start)
    requires Monotone(events, start) && AllHarmless(d, events, jti, exp)
    ensures Durable(Run(d, s, events), jti, exp, Clock(events, start))
    decreases |events|
  {
    if events != [] {
      var init := events[..|events| - 1];
      assert forall i :: 0 <= i < |init| ==> init[i] == events[i];
      RunKeepsDurable(d, s, init, jti, exp, start);
      hide Durable, Harmless, Next;
      NextKeepsDurable(d, Run(d, s, init), events[|events| - 1], jti, exp, Clock(init, start), Clock(events, start));
    }
  }

  lemma {:induction false} RunKeepsHeld(d: Suite, s: State, events: seq<Event>, jti: string, exp: int, start: int)
    requires jti != "" && Held(s, jti, exp, start) && Restart !in events
    requires Monotone(events, start) && AllHarmless(d, events, jti, exp)
    ensures Held(Run(d, s, events), jti, exp, Clock(events, start))
    decreases |events|
  {
    if events != [] {
      var init := events[..|events| - 1];
      assert forall i :: 0 <= i < |init| ==> init[i] == events[i];
      RunKeepsHeld(d, s, init, jti, exp, start);
      hide Held, Harmless, Next;
      NextKeepsHeld(d, Run(d, s, init), events[|events| - 1], jti, exp, Clock(init, start), Clock(events, start));
    }
  }

  // A token that the list keeps out does not verify.
  lemma {:induction false} KeptOutFails(d: Suite, revoked: map<string, int>, token: string, now: int, later: int)
    requires Consistent(d) && now <= later
    requires KeptOut(revoked, ExtractJtiAndExp(d, token).0, ExtractJtiAndExp(d, token).1, now)
    ensures Verify(d, revoked, token, later).None?
  {
    if Authentic(d, token, later).Some? {
      ExtractMatches(d, token, later);
    }
  }

  // Once Revoke has returned, Verify rejects the token after any further revocations of harmless
  // strings, prunes and loads of the file, on disk or not, as long as the process lives.
  lemma {:induction false} RevocationPermanent(
    d: Suite, s: State, token: string, saved: bool, events: seq<Event>, now: int, later: int)
    requires Consistent(d)
    requires var (jti, exp) := ExtractJtiAndExp(d, token);
             && AllHarmless(d, events, jti, exp)
             && LoadsSafely(s.file, jti, exp, now)
    requires Monotone(events, now) && Restart !in events && Clock(events, now) <= later
    ensures Verify(d, Run(d, Next(d, s, Revoke(token, saved)), events).revoked, token, later).None?
  {
    var (jti, exp) := ExtractJtiAndExp(d, token);
    if jti == "" {
      NeverAuthentic(d, token, later);
    } else {
      RunKeepsHeld(d, Next(d, s, Revoke(token, saved)), events, jti, exp, now);
      KeptOutFails(d, Run(d, Next(d, s, Revoke(token, saved)), events).revoked, token, Clock(events, now), later);
    }
  }

  lemma {:induction false} NeverAuthentic(d: Suite, token: string, now: int)
    requires Consistent(d) && ExtractJtiAndExp(d, token).0 == ""
    ensures Authentic(d, token, now).None?
  {
    if Authentic(d, token, now).Some? {
      ExtractMatches(d, token, now);
    }
  }

  // If the revocation reached the file, Verify rejects the token also across restarts, in every state
  // in which the file is in use.
  lemma {:induction false} RevocationSurvivesRestart(
    d: Suite, s: State, token: string, events: seq<Event>, now: int, later: int)
    requires Consistent(d) && s.hasPath
    requires var (jti, exp) := ExtractJtiAndExp(d, token); AllHarmless(d, events, jti, exp)
    requires Monotone(events, now) && Clock(events, now) <= later
    requires Run(d, Next(d, s, Revoke(token, true)), events).hasPath
    ensures Verify(d, Run(d, Next(d, s, Revoke(token, true)), events).revoked, token, later).None?
  {
    var (jti, exp) := ExtractJtiAndExp(d, token);
    if jti == "" {
      NeverAuthentic(d, token, later);
    } else {
      RunKeepsDurable(d, Next(d, s, Revoke(token, true)), events, jti, exp, now);
      KeptOutFails(d, Run(d, Next(d, s, Revoke(token, true)), events).revoked, token, Clock(events, now), later);
    }
  }

  // ---------- When a revocation lasts ----------

  // A process that has revoked nothing and finds no file
  const FIRST := State(map[], false, Missing)

  ghost predicate RevokesOnly(events: seq<Event>, allowed: iset<string>) {
    forall i :: 0 <= i < |events| && events[i].Revoke? ==> events[i].token in allowed
  }

  ghost predicate AllowedHarmless(d: Suite, allowed: iset<string>, jti: string, exp: int) {
    forall x :: x in allowed ==> Harmless(d, x, jti, exp)
  }

  // Every run of prunes, loads of the file and revocations of allowed strings keeps the token out while the
  // process lives.
  ghost predicate StaysOut(d: Suite, s: State, token: string, allowed: iset<string>, now: int) {
    forall events, later ::
      Monotone(events, now) && RevokesOnly(events, allowed) && Restart !in events && Clock(events, now) <= later ==>
        Verify(d, Run(d, s, events).revoked, token, later).None?
  }

  // The same with restarts, in every state that uses the file
  ghost predicate StaysOutOnDisk(d: Suite, s: State, token: string, allowed: iset<string>, now: int) {
    forall events, later ::
      Monotone(events, now) && RevokesOnly(events, allowed) && Clock(events, now) <= later
      && Run(d, s, events).hasPath ==>
        Verify(d, Run(d, s, events).revoked, token, later).None?
  }

  lemma {:induction false} OneMore(d: Suite, s: State, events: seq<Event>, e: Event, start: int)
    ensures Run(d, s, events + [e]) == Next(d, Run(d, s, events), e)
    ensures Monotone(events + [e], start) <==>
              Monotone(events, start) && Clock(events, start) <= Clock(events + [e], start)
    ensures Clock(events + [e], start) ==
              if e.PruneExpired? || e.SetRevocationFile? then e.now else Clock(events, start)
  {
    assert (events + [e])[..|events|] == events;
  }

  // A prune that comes as soon as it can drop an entry that is not safe
  function PruneAt(revoked: map<string, int>, jti: string, now: int): int {
    if jti in revoked && revoked[jti] >= now then revoked[jti] + 1 else now
  }

  // After a run that ends with an unsafe list, that prune lets the token in again.
  lemma {:induction false} Reopened(d: Suite, s: State, events: seq<Event>, token: string, now: int)
    requires Authentic(d, token, now).Some? && Monotone(events, now) && Clock(events, now) == now
    requires var c := Authentic(d, token, now).value;
             !Safe(Run(d, s, events).revoked, c.jti, c.expiresAt)
    ensures
      var at := PruneAt(Run(d, s, events).revoked, Authentic(d, token, now).value.jti, now);
      var all := events + [PruneExpired(at, false)];
      && Monotone(all, now) && Clock(all, now) == at && Run(d, s, all).hasPath == Run(d, s, events).hasPath
      && Verify(d, Run(d, s, all).revoked, token, at).Some?
  {
    var at := PruneAt(Run(d, s, events).revoked, Authentic(d, token, now).value.jti, now);
    OneMore(d, s, events, PruneExpired(at, false), now);
    AuthenticOverTime(d, token, now, at);
    hide Authentic, Run;
  }

  lemma {:induction false} NotKept(
    d: Suite, s: State, events: seq<Event>, token: string, allowed: iset<string>, now: int)
    requires Authentic(d, token, now).Some? && Monotone(events, now) && Clock(events, now) == now
    requires var c := Authentic(d, token, now).value;
             !Safe(Run(d, s, events).revoked, c.jti, c.expiresAt)
    requires RevokesOnly(events, allowed)
    ensures Restart !in events ==> !StaysOut(d, s, token, allowed, now)
    ensures Run(d, s, events).hasPath ==> !StaysOutOnDisk(d, s, token, allowed, now)
  {
    Reopened(d, s, events, token, now);
    hide Authentic, Verify, Run, Monotone, Clock, Safe;
    var at := PruneAt(Run(d, s, events).revoked, Authentic(d, token, now).value.jti, now);
    var all := events + [PruneExpired(at, false)];
    assert Verify(d, Run(d, s, all).revoked, token, at).Some? && RevokesOnly(all, allowed);
  }

  lemma {:induction false} AllowedRunHarmless(
    d: Suite, events: seq<Event>, allowed: iset<string>, jti: string, exp: int)
    requires RevokesOnly(events, allowed) && AllowedHarmless(d, allowed, jti, exp)
    ensures AllHarmless(d, events, jti, exp)
  {
    hide Harmless;
  }

  // A live token is kept out by every such run if and only if its entry outlasts it, so does the file's unless it
  // is past already, and no allowed string shortens its life.
  lemma {:induction false} LastsExactly(d: Suite, s: State, token: string, allowed: iset<string>, now: int)
    requires Authentic(d, token, now).Some?
    ensures
      var c := Authentic(d, token, now).value;
      StaysOut(d, s, token, allowed, now) <==>
        Lasts(s, c.jti, c.expiresAt, now) && AllowedHarmless(d, allowed, c.jti, c.expiresAt)
  {
    var c := Authentic(d, token, now).value;
    var (jti, exp) := (c.jti, c.expiresAt);
    LiveClaims(d, token, now);
    hide Authentic, ExtractJtiAndExp;
    if Lasts(s, jti, exp, now) && AllowedHarmless(d, allowed, jti, exp) {
      forall events, later |
        Monotone(events, now) && RevokesOnly(events, allowed) && Restart !in events && Clock(events, now) <= later
        ensures Verify(d, Run(d, s, events).revoked, token, later).None?
      {
        AllowedRunHarmless(d, events, allowed, jti, exp);
        RunKeepsHeld(d, s, events, jti, exp, now);
        AuthenticOverTime(d, token, now, later);
      }
    } else if !Lasts(s, jti, exp, now) {
      NotLasting(d, s, token, allowed, now);
    } else {
      var x :| x in allowed && !Harmless(d, x, jti, exp);
      HarmfulReopens(d, s, [], x, token, allowed, now);
      assert [] + [Revoke(x, false)] == [Revoke(x, false)];
    }
  }

  lemma {:induction false} LiveClaims(d: Suite, token: string, now: int)
    requires Authentic(d, token, now).Some?
    ensures Authentic(d, token, now).value.jti != "" && now <= Authentic(d, token, now).value.expiresAt
  {}

  lemma {:induction false} NotLasting(d: Suite, s: State, token: string, allowed: iset<string>, now: int)
    requires Authentic(d, token, now).Some?
    requires !Lasts(s, Authentic(d, token, now).value.jti, Authentic(d, token, now).value.expiresAt, now)
    ensures !StaysOut(d, s, token, allowed, now)
  {
    var c := Authentic(d, token, now).value;
    hide Authentic, Verify, StaysOut;
    if Safe(s.revoked, c.jti, c.expiresAt) {
      assert [] + [SetRevocationFile(now)] == [SetRevocationFile(now)];
      OneMore(d, s, [], SetRevocationFile(now), now);
      NotKept(d, s, [SetRevocationFile(now)], token, allowed, now);
    } else {
      NotKept(d, s, [], token, allowed, now);
    }
  }

  // An earlier process revoked a shorter string to the file; this one revokes the token before it sets the file.
  function BeforeLoad(shorter: string, token: string, now: int): seq<Event> {
    [SetRevocationFile(now), Revoke(shorter, true), Restart, Revoke(token, true)]
  }

  // The input on which a load loses a revocation: loading the file replaces the token's entry by the shorter one.
  lemma {:induction false} LoadReopens(d: Suite, token: string, shorter: string, x: int, now: int)
    requires Consistent(d) && Authentic(d, token, now).Some? && 0 < now <= x < Authentic(d, token, now).value.expiresAt
    requires ExtractJtiAndExp(d, shorter) == (Authentic(d, token, now).value.jti, x)
    ensures
      var before := BeforeLoad(shorter, token, now);
      var after := before + [SetRevocationFile(now)] + [PruneExpired(x + 1, false)];
      && Monotone(after, now)
      && Verify(d, Run(d, FIRST, before).revoked, token, now).None?
      && Verify(d, Run(d, FIRST, after).revoked, token, x + 1).Some?
  {
    var c := Authentic(d, token, now).value;
    StateBeforeLoad(d, token, shorter, x, now);
    AuthenticOverTime(d, token, now, x + 1);
    LoadAndPrune(d, BeforeLoad(shorter, token, now), c.jti, c.expiresAt, x, now);
    hide Authentic, ExtractJtiAndExp, Consistent, Run, Monotone, Clock, BeforeLoad;
  }

  lemma {:induction false} LoadAndPrune(d: Suite, before: seq<Event>, jti: string, exp: int, x: int, now: int)
    requires Monotone(before, now) && Clock(before, now) == now && 0 < now <= x
    requires Run(d, FIRST, before) == State(map[jti := exp], false, Entries(map[jti := x]))
    ensures
      var after := before + [SetRevocationFile(now)] + [PruneExpired(x + 1, false)];
      Monotone(after, now) && jti !in Run(d, FIRST, after).revoked
  {
    OneMore(d, FIRST, before, SetRevocationFile(now), now);
    OneMore(d, FIRST, before + [SetRevocationFile(now)], PruneExpired(x + 1, false), now);
    hide Run, Monotone, Clock;
  }

  lemma {:induction false} StateBeforeLoad(d: Suite, token: string, shorter: string, x: int, now: int)
    requires Consistent(d) && Authentic(d, token, now).Some?
    requires ExtractJtiAndExp(d, shorter) == (Authentic(d, token, now).value.jti, x)
    ensures
      var c, before := Authentic(d, token, now).value, BeforeLoad(shorter, token, now);
      && Monotone(before, now) && Clock(before, now) == now
      && Run(d, FIRST, before) == State(map[c.jti := c.expiresAt], false, Entries(map[c.jti := x]))
  {
    var c := Authentic(d, token, now).value;
    ExtractMatches(d, token, now);
    hide Authentic, ExtractJtiAndExp, Consistent;
    StateOfFile(d, shorter, c.jti, x, now);
    var begun := [SetRevocationFile(now)] + [Revoke(shorter, true)];
    OneMore(d, FIRST, begun, Restart, now);
    OneMore(d, FIRST, begun + [Restart], Revoke(token, true), now);
    assert begun + [Restart] + [Revoke(token, true)] == BeforeLoad(shorter, token, now);
    hide Run, Monotone, Clock;
  }

  lemma {:induction false} StateOfFile(d: Suite, shorter: string, jti: string, x: int, now: int)
    requires ExtractJtiAndExp(d, shorter) == (jti, x) && jti != ""
    ensures
      var begun := [SetRevocationFile(now)] + [Revoke(shorter, true)];
      && Monotone(begun, now) && Clock(begun, now) == now
      && Run(d, FIRST, begun) == State(map[jti := x], true, Entries(map[jti := x]))
  {
    hide ExtractJtiAndExp;
    OneMore(d, FIRST, [], SetRevocationFile(now), now);
    assert [] + [SetRevocationFile(now)] == [SetRevocationFile(now)];
    assert Run(d, FIRST, []) == FIRST && Monotone([], now) && Clock([], now) == now;
    OneMore(d, FIRST, [SetRevocationFile(now)], Revoke(shorter, true), now);
    hide Run, Monotone, Clock;
  }

  // After events that revoke nothing, one harmful revocation and a prune let the token in again.
  lemma {:induction false} HarmfulReopens(
    d: Suite, s: State, before: seq<Event>, x: string, token: string, allowed: iset<string>, now: int)
    requires Authentic(d, token, now).Some? && x in allowed
    requires !Harmless(d, x, Authentic(d, token, now).value.jti, Authentic(d, token, now).value.expiresAt)
    requires Monotone(before, now) && Clock(before, now) == now && RevokesOnly(before, allowed)
    ensures Restart !in before ==> !StaysOut(d, s, token, allowed, now)
    ensures Run(d, s, before).hasPath ==> !StaysOutOnDisk(d, s, token, allowed, now)
  {
    var c := Authentic(d, token, now).value;
    LiveClaims(d, token, now);
    hide Authentic, Verify, ExtractJtiAndExp;
    var events := before + [Revoke(x, false)];
    OneMore(d, s, before, Revoke(x, false), now);
    assert !Safe(Run(d, s, events).revoked, c.jti, c.expiresAt);
    NotKept(d, s, events, token, allowed, now);
  }

  // No run of a process that found a file that does not parse ever uses it.
  predicate NeverUsed(s: State) {
    !s.hasPath && s.file.Corrupt?
  }

  lemma {:induction false} RunNeverUses(d: Suite, s: State, events: seq<Event>)
    requires NeverUsed(s)
    ensures NeverUsed(Run(d, s, events))
    decreases |events|
  {
    if events != [] {
      RunNeverUses(d, s, events[..|events| - 1]);
    }
  }

  // Across restarts a live token is kept out by every such run if and only if the file keeps it out, so does
  // memory if the file is in use, and no allowed string shortens its life; or the file is never used.
  lemma {:induction false} LastsOnDiskExactly(d: Suite, s: State, token: string, allowed: iset<string>, now: int)
    requires Authentic(d, token, now).Some?
    ensures
      var c := Authentic(d, token, now).value;
      StaysOutOnDisk(d, s, token, allowed, now) <==>
        || NeverUsed(s)
        || (Durable(s, c.jti, c.expiresAt, now) && AllowedHarmless(d, allowed, c.jti, c.expiresAt))
  {
    var c := Authentic(d, token, now).value;
    LiveClaims(d, token, now);
    hide Authentic, Durable, StaysOutOnDisk, Harmless, NeverUsed;
    if NeverUsed(s) {
      NeverUsedStaysOut(d, s, token, allowed, now);
    } else if !Durable(s, c.jti, c.expiresAt, now) {
      NotDurable(d, s, token, allowed, now);
    } else if AllowedHarmless(d, allowed, c.jti, c.expiresAt) {
      DurableStaysOut(d, s, token, allowed, now);
    } else {
      var x :| x in allowed && !Harmless(d, x, c.jti, c.expiresAt);
      HarmfulOnDisk(d, s, x, token, allowed, now);
    }
  }

  lemma {:induction false} NeverUsedStaysOut(
    d: Suite, s: State, token: string, allowed: iset<string>, now: int)
    requires NeverUsed(s)
    ensures StaysOutOnDisk(d, s, token, allowed, now)
  {
    hide Verify, Monotone, Clock;
    forall events | Run(d, s, events).hasPath
      ensures false
    {
      RunNeverUses(d, s, events);
    }
  }

  lemma {:induction false} DurableStaysOut(d: Suite, s: State, token: string, allowed: iset<string>, now: int)
    requires Authentic(d, token, now).Some?
    requires Durable(s, Authentic(d, token, now).value.jti, Authentic(d, token, now).value.expiresAt, now)
    requires AllowedHarmless(d, allowed, Authentic(d, token, now).value.jti, Authentic(d, token, now).value.expiresAt)
    ensures StaysOutOnDisk(d, s, token, allowed, now)
  {
    var c := Authentic(d, token, now).value;
    LiveClaims(d, token, now);
    hide Authentic, Run, Monotone, Clock, Harmless;
    forall events, later |
      Monotone(events, now) && RevokesOnly(events, allowed) && Clock(events, now) <= later && Run(d, s, events).hasPath
      ensures Verify(d, Run(d, s, events).revoked, token, later).None?
    {
      AllowedRunHarmless(d, events, allowed, c.jti, c.expiresAt);
      RunKeepsDurable(d, s, events, c.jti, c.expiresAt, now);
      AuthenticOverTime(d, token, now, later);
    }
  }

  lemma {:induction false} HarmfulOnDisk(
    d: Suite, s: State, x: string, token: string, allowed: iset<string>, now: int)
    requires Authentic(d, token, now).Some? && x in allowed && !NeverUsed(s)
    requires !Harmless(d, x, Authentic(d, token, now).value.jti, Authentic(d, token, now).value.expiresAt)
    ensures !StaysOutOnDisk(d, s, token, allowed, now)
  {
    hide Authentic, StaysOutOnDisk, StaysOut, Harmless;
    if s.hasPath {
      HarmfulReopens(d, s, [], x, token, allowed, now);
    } else {
      assert [] + [SetRevocationFile(now)] == [SetRevocationFile(now)];
      OneMore(d, s, [], SetRevocationFile(now), now);
      HarmfulReopens(d, s, [SetRevocationFile(now)], x, token, allowed, now);
    }
  }

  lemma {:induction false} AfterReload(d: Suite, s: State, now: int)
    ensures var events := [Restart, SetRevocationFile(now)];
            && Run(d, s, events) == Next(d, State(map[], false, s.file), SetRevocationFile(now))
            && Monotone(events, now) && Clock(events, now) == now
  {
    OneMore(d, s, [], Restart, now);
    assert [] + [Restart] == [Restart];
    OneMore(d, s, [Restart], SetRevocationFile(now), now);
    assert [Restart] + [SetRevocationFile(now)] == [Restart, SetRevocationFile(now)];
  }

  lemma {:induction false} NotDurable(d: Suite, s: State, token: string, allowed: iset<string>, now: int)
    requires Authentic(d, token, now).Some? && !NeverUsed(s)
    requires !Durable(s, Authentic(d, token, now).value.jti, Authentic(d, token, now).value.expiresAt, now)
    ensures !StaysOutOnDisk(d, s, token, allowed, now)
  {
    var c := Authentic(d, token, now).value;
    LiveClaims(d, token, now);
    hide Authentic, StaysOut, StaysOutOnDisk;
    if s.hasPath && !Safe(s.revoked, c.jti, c.expiresAt) {
      NotKept(d, s, [], token, allowed, now);
    } else {
      AfterReload(d, s, now);
      hide Run, Monotone, Clock;
      NotKept(d, s, [Restart, SetRevocationFile(now)], token, allowed, now);
    }
  }

  // ---------- Runs in which only issued tokens are revoked ----------

  // The string verified at some time, to claims that were issued.
  ghost predicate IsToken(d: Suite, issued: set<Claims>, token: string) {
    exists now :: Authentic(d, token, now).Some? && Authentic(d, token, now).value in issued
  }

  // Token IDs are random; no two issued tokens share one.
  predicate UniqueIDs(issued: set<Claims>) {
    forall c, e :: c in issued && e in issued && c.jti == e.jti ==> c == e
  }

  ghost predicate OnlyTokens(d: Suite, issued: set<Claims>, events: seq<Event>) {
    forall i :: 0 <= i < |events| && events[i].Revoke? ==> IsToken(d, issued, events[i].token)
  }

  // Revoking an issued token enters its own expiry, so it is harmless to itself and to all others.
  lemma {:induction false} TokenNamesItself(d: Suite, issued: set<Claims>, token: string, c: Claims)
    requires Consistent(d) && UniqueIDs(issued) && IsToken(d, issued, token) && c in issued
    ensures ExtractJtiAndExp(d, token).0 == c.jti ==> ExtractJtiAndExp(d, token).1 == c.expiresAt
    ensures Harmless(d, token, c.jti, c.expiresAt)
  {
    var now :| Authentic(d, token, now).Some? && Authentic(d, token, now).value in issued;
    ExtractMatches(d, token, now);
  }

  lemma {:induction false} TokensHarmless(d: Suite, issued: set<Claims>, events: seq<Event>, c: Claims)
    requires Consistent(d) && UniqueIDs(issued) && OnlyTokens(d, issued, events) && c in issued
    ensures AllHarmless(d, events, c.jti, c.expiresAt)
  {
    forall i | 0 <= i < |events| && events[i].Revoke?
      ensures Harmless(d, events[i].token, c.jti, c.expiresAt)
    {
      TokenNamesItself(d, issued, events[i].token, c);
    }
  }

  // If the ID is listed, in memory or on disk, then with the expiry of its token.
  predicate Faithful(s: State, c: Claims) {
    && (c.jti in s.revoked ==> s.revoked[c.jti] == c.expiresAt)
    && (s.file.Entries? && c.jti in s.file.m ==> s.file.m[c.jti] == c.expiresAt)
  }

  lemma {:induction false} NextKeepsFaithful(d: Suite, s: State, e: Event, c: Claims)
    requires Faithful(s, c)
    requires e.Revoke? && ExtractJtiAndExp(d, e.token).0 == c.jti ==> ExtractJtiAndExp(d, e.token).1 == c.expiresAt
    ensures Faithful(Next(d, s, e), c)
  {
    hide ExtractJtiAndExp;
  }

  lemma {:induction false} RunKeepsFaithful(d: Suite, issued: set<Claims>, events: seq<Event>, c: Claims)
    requires Consistent(d) && UniqueIDs(issued) && OnlyTokens(d, issued, events) && c in issued
    ensures Faithful(Run(d, FIRST, events), c)
    decreases |events|
  {
    if events != [] {
      var before, last := events[..|events| - 1], events[|events| - 1];
      assert forall i :: 0 <= i < |before| ==> before[i] == events[i];
      RunKeepsFaithful(d, issued, before, c);
      if last.Revoke? {
        TokenNamesItself(d, issued, last.token, c);
      }
      NextKeepsFaithful(d, Run(d, FIRST, before), last, c);
      hide ExtractJtiAndExp, Faithful, Next;
    }
  }

  lemma {:induction false} TokenClaims(d: Suite, issued: set<Claims>, token: string) returns (c: Claims)
    requires Consistent(d) && IsToken(d, issued, token)
    ensures c in issued && ExtractJtiAndExp(d, token) == (c.jti, c.expiresAt)
  {
    var now :| Authentic(d, token, now).Some? && Authentic(d, token, now).value in issued;
    ExtractMatches(d, token, now);
    c := Authentic(d, token, now).value;
  }

  // When only issued tokens are ever revoked, once Revoke returns, Verify rejects the token at every later time:
  // after any run before it, restarts included, and any further revocations, prunes and loads of the file.
  lemma {:induction false} TokenStaysRevoked(
    d: Suite, issued: set<Claims>, before: seq<Event>, token: string, saved: bool,
    after: seq<Event>, now: int, later: int)
    requires Consistent(d) && UniqueIDs(issued) && IsToken(d, issued, token)
    requires OnlyTokens(d, issued, before) && OnlyTokens(d, issued, after)
    requires Monotone(after, now) && Restart !in after && Clock(after, now) <= later
    ensures
      var s := Next(d, Run(d, FIRST, before), Revoke(token, saved));
      Verify(d, Run(d, s, after).revoked, token, later).None?
  {
    var c := TokenClaims(d, issued, token);
    RunKeepsFaithful(d, issued, before, c);
    TokensHarmless(d, issued, after, c);
    RevocationPermanent(d, Run(d, FIRST, before), token, saved, after, now, later);
  }

  // If the revocation was written, the same holds across restarts, in every state that uses the file.
  lemma {:induction false} TokenStaysRevokedOnDisk(
    d: Suite, issued: set<Claims>, before: seq<Event>, token: string, after: seq<Event>, now: int, later: int)
    requires Consistent(d) && UniqueIDs(issued) && IsToken(d, issued, token) && OnlyTokens(d, issued, after)
    requires Run(d, FIRST, before).hasPath && Monotone(after, now) && Clock(after, now) <= later
    requires Run(d, Next(d, Run(d, FIRST, before), Revoke(token, true)), after).hasPath
    ensures
      var s := Next(d, Run(d, FIRST, before), Revoke(token, true));
      Verify(d, Run(d, s, after).revoked, token, later).None?
  {
    var c := TokenClaims(d, issued, token);
    TokensHarmless(d, issued, after, c);
    RevocationSurvivesRestart(d, Run(d, FIRST, before), token, after, now, later);
  }

  // ---------- The objects ----------

  class Disk {
    var file: File

    constructor ()
      ensures file == Missing
    {
      file := Missing;
    }
  }

  class Authority {
    const d: Suite
    const disk: Disk
    var revoked: map<string, int>
    var hasPath: bool

    ghost function Model(): State
      reads this, disk
    {
      State(revoked, hasPath, disk.file)
    }

    constructor (d: Suite, disk: Disk)
      ensures Model() == State(map[], false, disk.file) && this.d == d && this.disk == disk
    {
      this.d, this.disk := d, disk;
      revoked, hasPath := map[], false;
    }

    method RevokeToken(token: string, saved: bool)
      modifies this, disk
      ensures Model() == Next(d, old(Model()), Revoke(token, saved))
    {
      var (jti, exp) := ExtractJtiAndExp(d, token);
      if jti == "" {
        return;
      }
      revoked := revoked[jti := exp];
      Flush(saved);
    }

    method Flush(saved: bool)
      modifies disk
      ensures Model() == Persist(old(Model()), saved)
    {
      if hasPath && saved {
        disk.file := Entries(revoked);
      }
    }

    method Sweep(now: int, saved: bool)
      modifies this, disk
      ensures Model() == Next(d, old(Model()), PruneExpired(now, saved))
    {
      var todo := revoked.Keys;
      while todo != {}
        invariant hasPath == old(hasPath) && disk.file == old(disk.file)
        invariant todo <= revoked.Keys <= old(revoked).Keys
        invariant forall k :: k in revoked ==> revoked[k] == old(revoked)[k]
        invariant forall k :: k in old(revoked).Keys - todo ==> (k in revoked <==> !Prunable(old(revoked)[k], now))
        decreases todo
      {
        var jti :| jti in todo;
        if revoked[jti] > 0 && revoked[jti] < now {
          revoked := revoked - {jti};
        }
        todo := todo - {jti};
      }
      assert revoked == Prune(old(revoked), now);
      Flush(saved);
    }

    // Err is a file that does not parse.
    method UseRevocationFile(now: int) returns (ok: bool)
      modifies this
      ensures ok <==> !disk.file.Corrupt?
      ensures Model() == Next(d, old(Model()), SetRevocationFile(now))
    {
      if disk.file.Corrupt? {
        return false;
      }
      if disk.file.Entries? {
        var m := disk.file.m;
        var todo := m.Keys;
        while todo != {}
          invariant todo <= m.Keys && hasPath == old(hasPath)
          invariant revoked.Keys == old(revoked).Keys + (set k | k in m.Keys - todo && !Prunable(m[k], now))
          invariant forall k :: k in revoked ==>
            revoked[k] == if k in m && k !in todo && !Prunable(m[k], now) then m[k] else old(revoked)[k]
          decreases todo
        {
          var jti :| jti in todo;
          if !(m[jti] > 0 && m[jti] < now) {
            revoked := revoked[jti := m[jti]];
          }
          todo := todo - {jti};
        }
        assert revoked == old(revoked) + Prune(m, now);
      }
      hasPath := true;
      return true;
    }
  }
}
