/**
 * The user record of the directory: its fields and defaults, the setters
 * (`lowercase`, `trim`) and validators of the schema, the password hook run
 * before each save, and the public profile.
 */
module UserModel {
  import opened Common

  datatype Presence = Online | Offline

  /** A stored user. `password` holds the bcrypt hash once saved. */
  datatype User = User(
    id: UserId,
    email: string,
    username: string,
    password: string,
    avatar: Option<string>,
    status: Presence,
    lastConnection: Option<nat>,
    socketId: Option<string>,
    createdAt: nat,
    updatedAt: nat)

  /** What `toPublicJSON` hands out: no password and no socket id. */
  datatype PublicProfile = PublicProfile(
    id: UserId,
    email: string,
    username: string,
    avatar: Option<string>,
    status: Presence,
    lastConnection: Option<nat>,
    createdAt: nat)

  const MinUsernameLength := 3
  const MinPasswordLength := 6

  // ---------------------------------------------------------------------------
  // Characters and setters
  // ---------------------------------------------------------------------------

  /** The class `\s` of JavaScript regular expressions, which is also what `trim` strips. */
  predicate IsSpace(c: char) {
    || c == '\t' || c == '\n' || c == '\U{000B}' || c == '\U{000C}' || c == '\r' || c == ' '
    || c == '\U{00A0}' || c == '\U{1680}' || ('\U{2000}' <= c <= '\U{200A}')
    || c == '\U{2028}' || c == '\U{2029}' || c == '\U{202F}' || c == '\U{205F}'
    || c == '\U{3000}' || c == '\U{FEFF}'
  }

  predicate AllSpace(s: string) {
    forall k :: 0 <= k < |s| ==> IsSpace(s[k])
  }

  /** `s` is empty or neither starts nor ends with whitespace. */
  predicate Trimmed(s: string) {
    s == [] || (!IsSpace(s[0]) && !IsSpace(s[|s| - 1]))
  }

  function TrimStart(s: string): (r: string)
    ensures |r| <= |s| && r == s[|s| - |r|..]
    ensures AllSpace(s[..|s| - |r|])
    ensures r != [] ==> !IsSpace(r[0])
  {
    if |s| > 0 && IsSpace(s[0]) then
      var r := TrimStart(s[1..]);
      assert forall k :: 0 <= k < |s| - |r| ==> s[..|s| - |r|][k] == s[k];
      assert forall k :: 1 <= k < |s| - |r| ==> s[k] == s[1..][..|s| - 1 - |r|][k - 1];
      r
    else s
  }

  function TrimEnd(s: string): (r: string)
    ensures |r| <= |s| && r == s[..|r|]
    ensures AllSpace(s[|r|..])
    ensures r != [] ==> !IsSpace(r[|r| - 1])
  {
    if |s| > 0 && IsSpace(s[|s| - 1]) then
      var t := s[..|s| - 1];
      var r := TrimEnd(t);
      assert forall k :: |r| <= k < |s| - 1 ==> s[k] == t[|r|..][k - |r|];
      assert forall k :: |r| <= k < |s| ==> s[|r|..][k - |r|] == s[k];
      r
    else s
  }

  /** `String.prototype.trim`, the schema's `trim` setter. */
  function Trim(s: string): (r: string)
    ensures |r| <= |s|
    ensures Trimmed(r)
  {
    TrimEnd(TrimStart(s))
  }

  /**
   * Trim removes exactly the surrounding whitespace: padding a trimmed string
   * with whitespace on both sides and trimming gives it back.
   */
  lemma {:induction false} TrimStripsPadding(pre: string, mid: string, post: string)
    requires AllSpace(pre) && AllSpace(post) && Trimmed(mid)
    ensures Trim(pre + mid + post) == mid
  {
    var rest := mid + post;
    assert pre + mid + post == pre + rest;
    assert rest[..|mid|] == mid;
    if mid == [] {
      assert rest == post;
    }
    TrimStartStrips(pre, rest, mid);
    if mid == [] {
      AllSpaceTrimStart(post);
    } else {
      TrimEndStrips(mid, post);
    }
  }

  lemma {:induction false} TrimStartStrips(pre: string, rest: string, mid: string)
    requires AllSpace(pre) && Trimmed(mid) && |rest| >= |mid| && rest[..|mid|] == mid
    requires mid == [] ==> AllSpace(rest)
    ensures TrimStart(pre + rest) == TrimStart(rest)
    ensures mid != [] ==> TrimStart(rest) == rest
  {
    if |pre| > 0 {
      assert (pre + rest)[1..] == pre[1..] + rest;
      TrimStartStrips(pre[1..], rest, mid);
    }
    if mid != [] {
      assert rest[0] == mid[0];
    }
    if mid == [] && |rest| > 0 && |pre| == 0 {
      AllSpaceTrimStart(rest);
    }
  }

  lemma {:induction false} AllSpaceTrimStart(s: string)
    requires AllSpace(s)
    ensures TrimStart(s) == []
  {
    if |s| > 0 {
      AllSpaceTrimStart(s[1..]);
    }
  }

  lemma {:induction false} TrimEndStrips(mid: string, post: string)
    requires AllSpace(post) && Trimmed(mid)
    ensures TrimEnd(mid + post) == mid
    decreases |post|
  {
    if |post| > 0 {
      var s := mid + post;
      assert s[..|s| - 1] == mid + post[..|post| - 1];
      TrimEndStrips(mid, post[..|post| - 1]);
    } else {
      assert mid + post == mid;
    }
  }

  /** Lower-cases one character (the model covers the ASCII letters). */
  function LowerChar(c: char): (r: char)
    ensures IsSpace(r) == IsSpace(c)
    ensures r != '@' || c == '@'
    ensures !('A' <= r <= 'Z')
    ensures !('A' <= c <= 'Z') ==> r == c
  {
    if 'A' <= c <= 'Z' then (c as int + 32) as char else c
  }

  /** The schema's `lowercase` setter. */
  function ToLower(s: string): (r: string)
    ensures |r| == |s|
    ensures forall k :: 0 <= k < |s| ==> r[k] == LowerChar(s[k])
  {
    seq(|s|, k requires 0 <= k < |s| => LowerChar(s[k]))
  }

  /** The stored form of an e-mail address: lower-cased, then trimmed. */
  function NormalizeEmail(raw: string): (r: string)
    ensures |r| <= |raw|
    ensures Trimmed(r)
    ensures forall k :: 0 <= k < |r| ==> !('A' <= r[k] <= 'Z')
  {
    NoUpperTrim(ToLower(raw));
    Trim(ToLower(raw))
  }

  /** Trimming keeps a string free of upper-case letters: what remains is a slice of it. */
  lemma NoUpperTrim(t: string)
    requires forall k :: 0 <= k < |t| ==> !('A' <= t[k] <= 'Z')
    ensures forall k :: 0 <= k < |Trim(t)| ==> !('A' <= Trim(t)[k] <= 'Z')
  {
    var a := TrimStart(t);
    NoUpperSuffix(t, |t| - |a|);
    NoUpperPrefix(a, |TrimEnd(a)|);
  }

  lemma NoUpperSuffix(t: string, i: nat)
    requires i <= |t| && forall k :: 0 <= k < |t| ==> !('A' <= t[k] <= 'Z')
    ensures forall k :: 0 <= k < |t[i..]| ==> !('A' <= t[i..][k] <= 'Z')
  {
    forall k | 0 <= k < |t[i..]| ensures !('A' <= t[i..][k] <= 'Z') {
      assert t[i..][k] == t[i + k];
    }
  }

  lemma NoUpperPrefix(t: string, n: nat)
    requires n <= |t| && forall k :: 0 <= k < |t| ==> !('A' <= t[k] <= 'Z')
    ensures forall k :: 0 <= k < |t[..n]| ==> !('A' <= t[..n][k] <= 'Z')
  {
    forall k | 0 <= k < n ensures !('A' <= t[..n][k] <= 'Z') {
      assert t[..n][k] == t[k];
    }
  }

  /**
   * The stored form is a fixed point: normalising it again gives it back, so
   * a lookup that normalises its filter finds a stored address as it is.
   */
  lemma NormalizeEmailIdempotent(raw: string)
    ensures NormalizeEmail(NormalizeEmail(raw)) == NormalizeEmail(raw)
  {
    var e := NormalizeEmail(raw);
    assert ToLower(e) == e;
    TrimStripsPadding([], e, []);
    assert [] + e + [] == e;
  }

  // ---------------------------------------------------------------------------
  // The e-mail validator
  // ---------------------------------------------------------------------------

  predicate NoSpace(s: string) {
    forall k :: 0 <= k < |s| ==> !IsSpace(s[k])
  }

  function IndexOf(s: string, c: char): Option<nat> {
    FindIndex(s, (x: char) => x == c)
  }

  /** After the `@`: at least three characters and a `.` that is neither first nor last. */
  predicate DottedDomain(d: string) {
    |d| >= 3 && '.' in d[1..|d| - 1]
  }

  /**
   * The `validate` of the `email` path, as conditions: no whitespace, exactly
   * one `@`, something before it, and a dotted part after it.
   */
  predicate ValidEmail(v: string) {
    && NoSpace(v)
    && multiset(v)['@'] == 1
    && match IndexOf(v, '@')
       case None => false
       case Some(i) => i > 0 && DottedDomain(v[i + 1..])
  }

  /** A run of `[^\s@]+`. */
  predicate Atom(x: string) {
    |x| > 0 && forall k :: 0 <= k < |x| ==> !IsSpace(x[k]) && x[k] != '@'
  }

  /** `/^[^\s@]+@[^\s@]+\.[^\s@]+$/`, with the `@` at `i` and the `.` at `j`. */
  ghost predicate PatternAt(v: string, i: int, j: int) {
    && 0 < i < j < |v| - 1
    && v[i] == '@' && v[j] == '.'
    && Atom(v[..i]) && Atom(v[i + 1..j]) && Atom(v[j + 1..])
  }

  ghost predicate MatchesEmailPattern(v: string) {
    exists i, j :: PatternAt(v, i, j)
  }

  lemma NoAtCount(x: string)
    requires forall k :: 0 <= k < |x| ==> x[k] != '@'
    ensures multiset(x)['@'] == 0
  {
    assert '@' !in x;
  }

  /** A character that occurs once occurs nowhere but at its one position. */
  lemma SingleOccurrence(v: string, i: nat, c: char)
    requires i < |v| && v[i] == c && multiset(v)[c] == 1
    ensures forall t :: 0 <= t < |v| && t != i ==> v[t] != c
  {
    assert v == v[..i] + [v[i]] + v[i + 1..];
    assert multiset(v) == multiset(v[..i]) + multiset{c} + multiset(v[i + 1..]);
    assert c !in multiset(v[..i]) && c !in multiset(v[i + 1..]);
    forall t | 0 <= t < |v| && t != i ensures v[t] != c {
      if t < i { assert v[t] == v[..i][t]; } else { assert v[t] == v[i + 1..][t - i - 1]; }
    }
  }

  lemma ValidEmailHasPattern(v: string)
    requires ValidEmail(v)
    ensures MatchesEmailPattern(v)
  {
    var i := IndexOf(v, '@').value;
    var d := v[i + 1..];
    var k :| 0 <= k < |d[1..|d| - 1]| && d[1..|d| - 1][k] == '.';
    var j := i + 2 + k;
    assert v[j] == d[1..|d| - 1][k];
    SingleOccurrence(v, i, '@');
    var a, b, c := v[..i], v[i + 1..j], v[j + 1..];
    assert forall t :: 0 <= t < |a| ==> a[t] == v[t];
    assert forall t :: 0 <= t < |b| ==> b[t] == v[t + i + 1];
    assert forall t :: 0 <= t < |c| ==> c[t] == v[t + j + 1];
    assert PatternAt(v, i, j);
  }

  /** A match holds exactly one `@`. */
  lemma PatternCountsOneAt(v: string, i: int, j: int)
    requires PatternAt(v, i, j)
    ensures multiset(v)['@'] == 1
  {
    var a, b, c := v[..i], v[i + 1..j], v[j + 1..];
    assert v == a + ['@'] + b + ['.'] + c;
    NoAtCount(a);
    NoAtCount(b);
    NoAtCount(c);
  }

  /** A match holds no whitespace. */
  lemma PatternNoSpace(v: string, i: int, j: int)
    requires PatternAt(v, i, j)
    ensures NoSpace(v)
  {
    var a, b, c := v[..i], v[i + 1..j], v[j + 1..];
    forall t | 0 <= t < |v| ensures !IsSpace(v[t]) {
      if t < i { assert v[t] == a[t]; }
      else if i < t < j { assert v[t] == b[t - i - 1]; }
      else if t > j { assert v[t] == c[t - j - 1]; }
    }
  }

  /** In a match, the first `@` is the one at `i`. */
  lemma PatternFirstAt(v: string, i: int, j: int)
    requires PatternAt(v, i, j)
    ensures IndexOf(v, '@') == Some(i)
  {
    var a := v[..i];
    assert forall t :: 0 <= t < i ==> v[t] == a[t];
  }

  lemma PatternIsValidEmail(v: string, i: int, j: int)
    requires PatternAt(v, i, j)
    ensures ValidEmail(v)
  {
    PatternCountsOneAt(v, i, j);
    PatternNoSpace(v, i, j);
    PatternFirstAt(v, i, j);
    var d := v[i + 1..];
    assert d[1..|d| - 1][j - i - 2] == '.';
  }

  /** The validator accepts exactly the strings the regular expression matches. */
  lemma EmailValidatorMatchesPattern(v: string)
    ensures ValidEmail(v) <==> MatchesEmailPattern(v)
  {
    if ValidEmail(v) {
      ValidEmailHasPattern(v);
    }
    if MatchesEmailPattern(v) {
      var i, j :| PatternAt(v, i, j);
      PatternIsValidEmail(v, i, j);
    }
  }

  /** The validator runs on the stored form, after `lowercase` and `trim`. */
  predicate EmailAccepted(raw: string) {
    ValidEmail(NormalizeEmail(raw))
  }

  // ---------------------------------------------------------------------------
  // Records
  // ---------------------------------------------------------------------------

  /**
   * `new User({ email, username, password, avatar })`: setters applied, the
   * schema's defaults for the other fields, both timestamps at `now`.
   */
  function NewUser(id: UserId, email: string, username: string, password: string,
                   avatar: Option<string>, now: nat): (u: User)
    ensures u.id == id && u.email == NormalizeEmail(email) && u.username == Trim(username)
    ensures u.password == password && u.avatar == avatar
    ensures u.status == Offline && u.lastConnection == None && u.socketId == None
    ensures u.createdAt == now && u.updatedAt == now
  {
    User(id, NormalizeEmail(email), Trim(username), password, avatar, Offline, None, None, now, now)
  }

  /**
   * The schema validators a save runs: the e-mail pattern, `minlength` of
   * username and password (`required` fails on an empty string, which both
   * length bounds already exclude).
   */
  predicate Validates(u: User) {
    ValidEmail(u.email) && |u.username| >= MinUsernameLength && |u.password| >= MinPasswordLength
  }

  /**
   * A new record passes the validators exactly when the e-mail is accepted in
   * its stored form, the trimmed username has at least 3 characters and the
   * password at least 6.
   */
  lemma NewUserValidates(id: UserId, email: string, username: string, password: string,
                         avatar: Option<string>, now: nat)
    ensures Validates(NewUser(id, email, username, password, avatar, now)) <==>
      EmailAccepted(email) && |Trim(username)| >= MinUsernameLength && |password| >= MinPasswordLength
  {
  }

  /**
   * The `pre('save')` hook: the password is replaced by its hash only when the
   * password path was modified; nothing else is touched.
   */
  function PreSave(u: User, passwordModified: bool, hash: string -> string): (r: User)
    ensures r.(password := u.password) == u
    ensures r.password == (if passwordModified then hash(u.password) else u.password)
  {
    if passwordModified then u.(password := hash(u.password)) else u
  }

  /**
   * Saving an existing record after assignments: the `pre('save')` hook
   * hashes the password when its value changed, then `updatedAt` moves to
   * `now` only when some value changed.
   */
  function SavedUser(before: User, after: User, now: nat, hash: string -> string): (r: User)
    ensures after == before ==> r == before
    ensures r.password == (if after.password != before.password then hash(after.password) else after.password)
    ensures r.(password := after.password, updatedAt := after.updatedAt) == after
    ensures after != before ==> r.updatedAt == now
  {
    if after == before then before
    else PreSave(after, after.password != before.password, hash).(updatedAt := now)
  }

  /** `toPublicJSON`. */
  function ToPublicJson(u: User): (p: PublicProfile)
    ensures p.id == u.id && p.email == u.email && p.username == u.username && p.avatar == u.avatar
    ensures p.status == u.status && p.lastConnection == u.lastConnection && p.createdAt == u.createdAt
  {
    PublicProfile(u.id, u.email, u.username, u.avatar, u.status, u.lastConnection, u.createdAt)
  }

  /** The profile does not depend on the password, the socket id or `updatedAt`. */
  lemma PublicProfileHidesSecrets(u: User, password: string, socketId: Option<string>, updatedAt: nat)
    ensures ToPublicJson(u.(password := password, socketId := socketId, updatedAt := updatedAt)) == ToPublicJson(u)
  {
  }

  // ---------------------------------------------------------------------------
  // Lookups
  // ---------------------------------------------------------------------------

  /** `findById`. */
  function FindUser(users: seq<User>, id: UserId): Option<nat> {
    FindIndex(users, (x: User) => x.id == id)
  }

  /** `findOne({ email })`. */
  function FindByEmail(users: seq<User>, email: string): Option<nat> {
    FindIndex(users, (x: User) => x.email == email)
  }

  /** `findOne({ username })`. */
  function FindByUsername(users: seq<User>, username: string): Option<nat> {
    FindIndex(users, (x: User) => x.username == username)
  }
}
