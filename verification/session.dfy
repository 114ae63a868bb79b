/** The application shell's session: the signed-in user held in memory and mirrored
    into the browser's local storage, modelled as a string-to-string map. */
module Session {
  import opened Wrappers
  import opened Text
  import Routes

  /** The session record: server id, email and access token. */
  datatype User = User(id: int, email: string, accessToken: string)

  /** The shell's state: the in-memory user (`null` when signed out) and local storage. */
  datatype AppState = AppState(user: Option<User>, storage: map<string, string>)

  const UserKey: string := "user"
  const TokenKey: string := "access_token"

  predicate SignedIn(s: AppState) {
    s.user.Some?
  }

  // ---------------------------------------------------------------- JSON text

  /** The lower-case hexadecimal digit of `d`. */
  function HexDigit(d: nat): (c: char)
    requires d < 16
  {
    if d < 10 then (('0' as int) + d) as char else (('a' as int) + d - 10) as char
  }

  /** The value of a lower-case hexadecimal digit, the inverse of `HexDigit`. */
  function HexValue(c: char): (r: Option<nat>)
    ensures r.Some? ==> r.value < 16 && HexDigit(r.value) == c
  {
    if '0' <= c <= '9' then Some((c as int) - ('0' as int))
    else if 'a' <= c <= 'f' then Some((c as int) - ('a' as int) + 10)
    else None
  }

  /** How `JSON.stringify` writes one character inside a string literal. */
  function EscapeChar(c: char): (r: string)
    ensures |r| > 0 && r[0] != '"'
  {
    if c == '"' then "\\\""
    else if c == '\\' then "\\\\"
    else if c == 8 as char then "\\b"
    else if c == '\t' then "\\t"
    else if c == '\n' then "\\n"
    else if c == 12 as char then "\\f"
    else if c == '\r' then "\\r"
    else if (c as int) < 0x20 then "\\u00" + [HexDigit((c as int) / 16), HexDigit((c as int) % 16)]
    else [c]
  }

  /** A JSON string literal. */
  function Quote(s: string): (r: string)
    ensures |r| >= 2 && r[0] == '"' && r[|r| - 1] == '"'
  {
    "\"" + EscapeBody(s) + "\""
  }

  function EscapeBody(s: string): string
    decreases |s|
  {
    if |s| == 0 then "" else EscapeChar(s[0]) + EscapeBody(s[1..])
  }

  /** `JSON.stringify(user)`, keys in the order the login page creates them. */
  function Serialize(u: User): (r: string)
    ensures |r| > 0 && r[0] == '{' && r[|r| - 1] == '}'
  {
    "{\"id\":" + IntToString(u.id)
    + ",\"email\":" + Quote(u.email)
    + ",\"access_token\":" + Quote(u.accessToken) + "}"
  }

  // ------------------------------------------------- reading the stored text back

  /** One character of a JSON string body, escape sequences included, and the text
      after it; None at the closing quote or at a sequence `Serialize` never writes. */
  function ReadChar(t: string): (r: Option<(char, string)>)
    ensures r.Some? ==> |r.value.1| < |t|
  {
    if |t| == 0 || t[0] == '"' then None
    else if t[0] != '\\' then Some((t[0], t[1..]))
    else if |t| < 2 then None
    else if t[1] == '"' then Some(('"', t[2..]))
    else if t[1] == '\\' then Some(('\\', t[2..]))
    else if t[1] == 'b' then Some((8 as char, t[2..]))
    else if t[1] == 't' then Some(('\t', t[2..]))
    else if t[1] == 'n' then Some(('\n', t[2..]))
    else if t[1] == 'f' then Some((12 as char, t[2..]))
    else if t[1] == 'r' then Some(('\r', t[2..]))
    else if t[1] == 'u' && |t| >= 6 && t[2] == '0' && t[3] == '0'
            && HexValue(t[4]).Some? && HexValue(t[5]).Some? then
      Some(((HexValue(t[4]).value * 16 + HexValue(t[5]).value) as char, t[6..]))
    else None
  }

  /** A JSON string body up to and including its closing quote: the characters it
      denotes and the text after the quote. */
  function ReadBody(t: string): Option<(string, string)>
    decreases |t|
  {
    if |t| > 0 && t[0] == '"' then Some(("", t[1..]))
    else
      match ReadChar(t)
      case None => None
      case Some((c, rest)) =>
        match ReadBody(rest)
        case None => None
        case Some((body, after)) => Some(([c] + body, after))
  }

  /** `t` without the literal `lit` in front of it, when it is there. */
  function Expect(t: string, lit: string): (r: Option<string>)
    ensures r.Some? ==> t == lit + r.value
  {
    if lit <= t then Some(t[|lit|..]) else None
  }

  /** A reader for the user records `Serialize` writes: an independent inverse, used
      to show the stored text determines the session. */
  function ParseUser(t: string): Option<User> {
    match Expect(t, "{\"id\":")
    case None => None
    case Some(t1) => ParseFields(t1)
  }

  /** The id numeral up to the first comma, then the string fields. */
  function ParseFields(t: string): Option<User> {
    var digits := SplitHead(t, ',');
    match (ParseDecimal(digits), ParseStrings(t[|digits|..]))
    case (Some(id), Some((email, token))) => Some(User(id, email, token))
    case _ => None
  }

  /** The email and token fields that follow the id, and the closing brace. */
  function ParseStrings(t: string): Option<(string, string)> {
    match Expect(t, ",\"email\":\"")
    case None => None
    case Some(t1) =>
      match ReadBody(t1)
      case None => None
      case Some((email, t2)) =>
        match ParseToken(t2)
        case None => None
        case Some(token) => Some((email, token))
  }

  /** The token field and the closing brace. */
  function ParseToken(t: string): Option<string> {
    match Expect(t, ",\"access_token\":\"")
    case None => None
    case Some(t1) =>
      match ReadBody(t1)
      case None => None
      case Some((token, t2)) => if t2 == "}" then Some(token) else None
  }

  lemma ExpectOfJoin(lit: string, rest: string)
    ensures Expect(lit + rest, lit) == Some(rest)
  {
    assert (lit + rest)[..|lit|] == lit;
    assert (lit + rest)[|lit|..] == rest;
  }

  /** Every escaped character reads back as itself. */
  lemma ReadEscapedChar(c: char, tail: string)
    ensures ReadChar(EscapeChar(c) + tail) == Some((c, tail))
  {
    var t := EscapeChar(c) + tail;
    if c == '"' || c == '\\' || c == 8 as char || c == '\t' || c == '\n' || c == 12 as char
       || c == '\r' {
      assert t[2..] == tail;
    } else if (c as int) < 0x20 {
      var hi, lo := (c as int) / 16, (c as int) % 16;
      assert t[4] == HexDigit(hi) && t[5] == HexDigit(lo);
      assert HexValue(HexDigit(hi)) == Some(hi);
      assert HexValue(HexDigit(lo)) == Some(lo);
      assert t[6..] == tail;
    } else {
      assert t[1..] == tail;
    }
  }

  /** An escaped body followed by its closing quote reads back as the original string. */
  lemma {:induction false} ReadEscapedBody(s: string, after: string)
    ensures ReadBody(EscapeBody(s) + "\"" + after) == Some((s, after))
    decreases |s|
  {
    var t := EscapeBody(s) + "\"" + after;
    if |s| == 0 {
      assert t == "\"" + after;
      assert t[1..] == after;
    } else {
      var rest := EscapeBody(s[1..]) + "\"" + after;
      assert t == EscapeChar(s[0]) + rest;
      ReadEscapedChar(s[0], rest);
      ReadEscapedBody(s[1..], after);
      assert [s[0]] + s[1..] == s;
    }
  }

  /** A numeral holds no comma, so the id ends where the next key begins. */
  lemma IntToStringHasNoComma(n: int)
    ensures ',' !in IntToString(n)
  {
    var s := IntToString(n);
    if n < 0 {
      assert s == [s[0]] + s[1..];
    }
  }

  /** The last field reads back as the token. */
  lemma ParseTokenInverts(token: string)
    ensures ParseToken(",\"access_token\":" + Quote(token) + "}") == Some(token)
  {
    var key, body := ",\"access_token\":", EscapeBody(token);
    var t1 := body + "\"}";
    assert Quote(token) == "\"" + body + "\"";
    assert key + Quote(token) + "}" == key + "\"" + t1;
    assert key + "\"" == ",\"access_token\":\"";
    ExpectOfJoin(",\"access_token\":\"", t1);
    assert t1 == body + "\"" + "}";
    ReadEscapedBody(token, "}");
  }

  /** The text after the id reads back as the email and the token. */
  lemma ParseStringsInverts(email: string, token: string)
    ensures ParseStrings(",\"email\":" + Quote(email) + ",\"access_token\":" + Quote(token) + "}")
            == Some((email, token))
  {
    var t2 := ",\"access_token\":" + Quote(token) + "}";
    var t1 := EscapeBody(email) + "\"" + t2;
    assert ",\"email\":" + Quote(email) + t2 == ",\"email\":\"" + t1;
    assert ",\"email\":" + Quote(email) + ",\"access_token\":" + Quote(token) + "}"
           == ",\"email\":" + Quote(email) + t2;
    ExpectOfJoin(",\"email\":\"", t1);
    ReadEscapedBody(email, t2);
    ParseTokenInverts(token);
  }

  /** A comma-free numeral followed by a comma-led remainder splits at that comma. */
  lemma SplitAtComma(n: string, rest: string)
    requires ',' !in n && |rest| > 0 && rest[0] == ','
    ensures SplitHead(n + rest, ',') == n
    ensures (n + rest)[|n|..] == rest
  {
    assert n + rest == n + [','] + rest[1..];
    SplitHeadOfJoin(n, ',', rest[1..]);
  }

  /** A numeral, a comma-led remainder the field reader accepts, and the opening key
      make a record the reader accepts. */
  lemma ParseUserOfParts(n: string, id: int, rest: string, email: string, token: string)
    requires ',' !in n && ParseDecimal(n) == Some(id)
    requires |rest| > 0 && rest[0] == ',' && ParseStrings(rest) == Some((email, token))
    ensures ParseUser("{\"id\":" + n + rest) == Some(User(id, email, token))
  {
    SplitAtComma(n, rest);
    assert ParseFields(n + rest) == Some(User(id, email, token));
    assert "{\"id\":" + n + rest == "{\"id\":" + (n + rest);
    ExpectOfJoin("{\"id\":", n + rest);
  }

  /** Reading back what `JSON.stringify` wrote gives the same user. */
  lemma ParseUserInvertsSerialize(u: User)
    ensures ParseUser(Serialize(u)) == Some(u)
  {
    var n := IntToString(u.id);
    var rest := ",\"email\":" + Quote(u.email) + ",\"access_token\":" + Quote(u.accessToken) + "}";
    assert Serialize(u) == "{\"id\":" + n + rest;
    IntToStringHasNoComma(u.id);
    IntToStringRoundTrip(u.id);
    ParseStringsInverts(u.email, u.accessToken);
    ParseUserOfParts(n, u.id, rest, u.email, u.accessToken);
  }

  /** The stored text determines the session: different users are stored differently. */
  lemma SerializeInjective(a: User, b: User)
    requires Serialize(a) == Serialize(b)
    ensures a == b
  {
    ParseUserInvertsSerialize(a);
    ParseUserInvertsSerialize(b);
  }

  // ---------------------------------------------------------------- operations

  /** The mount effect: a truthy stored `user` entry is read with `decode`, standing for
      `JSON.parse`, which gives None when the parsed value is falsy (`null`, `0`,
      `false`, `""`). The result becomes the in-memory user; otherwise the user stays
      `null`. Storage is only read. */
  function Restore(storage: map<string, string>, decode: string -> Option<User>): (s: AppState)
    ensures s.storage == storage
    ensures SignedIn(s) <==>
              UserKey in storage && storage[UserKey] != "" && decode(storage[UserKey]).Some?
    ensures SignedIn(s) ==> s.user == decode(storage[UserKey])
  {
    if UserKey in storage && storage[UserKey] != "" then
      AppState(decode(storage[UserKey]), storage)
    else AppState(None, storage)
  }

  /** A stored `null` (what `JSON.parse` turns into a falsy value) leaves the shell
      signed out, with no greeting and no Logout button. */
  lemma StoredNullStaysSignedOut(storage: map<string, string>, decode: string -> Option<User>)
    requires UserKey in storage && storage[UserKey] == "null" && decode("null") == None
    ensures !SignedIn(Restore(storage, decode))
    ensures ShellHeader(Restore(storage, decode)) == Header(None, false)
  {
  }

  /** `handleLogout`: the user becomes `null`, and the `user` and `access_token` entries
      are removed from storage. */
  function Logout(s: AppState): (r: AppState)
    ensures !SignedIn(r)
    ensures UserKey !in r.storage && TokenKey !in r.storage
    ensures forall k :: k != UserKey && k != TokenKey ==>
              (k in r.storage <==> k in s.storage)
              && (k in r.storage ==> r.storage[k] == s.storage[k])
  {
    AppState(None, s.storage - {UserKey, TokenKey})
  }

  /** After logging out, the reload to `/login` restores no user, whatever `decode` is. */
  lemma LogoutSurvivesReload(s: AppState, decode: string -> Option<User>)
    ensures !SignedIn(Restore(Logout(s).storage, decode))
  {
  }

  /** Once logged out, no pathname shows a protected page. */
  lemma LogoutLocksProtectedPages(s: AppState, path: string)
    requires Routes.IsPathname(path)
    ensures !Routes.Protected(Routes.Resolve(path, SignedIn(Logout(s))))
  {
    Routes.SignedOutSeesNoProtectedPage(path);
  }

  /** Logging out twice is logging out once. */
  lemma LogoutIdempotent(s: AppState)
    ensures Logout(Logout(s)) == Logout(s)
  {
    assert Logout(s).storage - {UserKey, TokenKey} == Logout(s).storage;
  }

  /** What the shell shows above the routes: a greeting and a Logout button, both
      only while a user is present. */
  datatype Header = Header(greeting: Option<string>, logoutButton: bool)

  function ShellHeader(s: AppState): (h: Header)
    ensures h.greeting.Some? <==> SignedIn(s)
    ensures h.logoutButton <==> SignedIn(s)
    ensures SignedIn(s) ==> h.greeting.value == "Hi, " + s.user.value.email
  {
    if s.user.Some? then Header(Some("Hi, " + s.user.value.email), true)
    else Header(None, false)
  }

  /** After logging out the shell shows neither the greeting nor the Logout button. */
  lemma LogoutHidesHeader(s: AppState)
    ensures ShellHeader(Logout(s)) == Header(None, false)
  {
  }
}
