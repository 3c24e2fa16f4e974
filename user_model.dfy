/** The Mongoose `User` model: the email format validator, the minimum lengths, the role
    enumeration and the defaults; the `select: false` projection of the password; and the
    `toJSON` transform that deletes the secret keys from the plain object it is given. */
module UserModel {
  import opened Wrappers
  import opened Strings

  datatype Role = USER | ADMIN

  function RoleName(r: Role): string
  {
    match r
    case USER => "USER"
    case ADMIN => "ADMIN"
  }

  /** The enum validator: only the names of ROLE values are accepted. */
  function ParseRole(s: string): (r: Option<Role>)
    ensures r.Some? ==> RoleName(r.value) == s
    ensures r.None? ==> forall x: Role :: RoleName(x) != s
  {
    if s == "USER" then Some(USER) else if s == "ADMIN" then Some(ADMIN) else None
  }

  /** A stored user. `version` is the `__v` key Mongoose keeps. */
  datatype User = User(
    id: string,
    name: Option<string>,
    email: Option<string>,
    password: Option<string>,
    role: Role,
    isVerified: bool,
    isGuest: bool,
    version: nat)

  // ---- the email validator `/^[^\s@]+@[^\s@]+\.[^\s@]+$/` ----

  /** `[^\s@]`. */
  predicate PlainChar(c: char)
  {
    !IsWhitespace(c) && c != '@'
  }

  predicate AllPlain(s: string)
  {
    forall k :: 0 <= k < |s| ==> PlainChar(s[k])
  }

  /** s is `[^\s@]+` '@' `[^\s@]+` '.' `[^\s@]+`, with the '@' at i and that '.' at j. */
  predicate EmailSplit(s: string, i: int, j: int)
  {
    0 < i && i + 1 < j && j + 1 < |s| && s[i] == '@' && s[j] == '.' &&
    AllPlain(s[..i]) && AllPlain(s[i + 1..j]) && AllPlain(s[j + 1..])
  }

  /** What the regular expression matches, read off its structure. */
  ghost predicate MatchesEmailPattern(s: string)
  {
    exists i, j :: EmailSplit(s, i, j)
  }

  /** The domain has a '.' that is neither its first nor its last character. */
  predicate HasInnerDot(d: string)
  {
    exists p :: 0 < p < |d| - 1 && d[p] == '.'
  }

  /** The validator, in words: no white space, exactly one '@', something before it,
      and a domain after it with a '.' strictly inside. */
  predicate EmailValid(s: string)
  {
    (forall k :: 0 <= k < |s| ==> !IsWhitespace(s[k])) &&
    exists i :: 0 < i < |s| && s[i] == '@' && '@' !in s[..i] && '@' !in s[i + 1..] && HasInnerDot(s[i + 1..])
  }

  /** Every character of a slice of s comes from s. */
  lemma SliceChars(s: string, lo: int, hi: int)
    requires 0 <= lo <= hi <= |s|
    ensures forall k :: 0 <= k < hi - lo ==> s[lo..hi][k] == s[lo + k]
  {
  }

  /** A slice without '@' of a string without white space is plain. */
  lemma PlainSlice(s: string, lo: int, hi: int)
    requires 0 <= lo <= hi <= |s|
    requires forall k :: 0 <= k < |s| ==> !IsWhitespace(s[k])
    requires forall k :: lo <= k < hi ==> s[k] != '@'
    ensures AllPlain(s[lo..hi])
  {
    SliceChars(s, lo, hi);
  }

  /** With no '@' before position i nor after it, i is the only place s has one. */
  lemma OnlyAt(s: string, i: int)
    requires 0 <= i < |s| && '@' !in s[..i] && '@' !in s[i + 1..]
    ensures forall k :: 0 <= k < |s| && k != i ==> s[k] != '@'
  {
    forall k | 0 <= k < |s| && k != i ensures s[k] != '@' {
      if k < i {
        assert s[k] == s[..i][k];
      } else {
        assert s[k] == s[i + 1..][k - i - 1];
      }
    }
  }

  lemma {:induction false} EmailValidToPattern(s: string)
    requires EmailValid(s)
    ensures MatchesEmailPattern(s)
  {
    var i :| 0 < i < |s| && s[i] == '@' && '@' !in s[..i] && '@' !in s[i + 1..] && HasInnerDot(s[i + 1..]);
    var d := s[i + 1..];
    var p :| 0 < p < |d| - 1 && d[p] == '.';
    var j := i + 1 + p;
    OnlyAt(s, i);
    PlainSlice(s, 0, i);
    PlainSlice(s, i + 1, j);
    PlainSlice(s, j + 1, |s|);
    assert s[..i] == s[0..i] && s[j + 1..] == s[j + 1..|s|];
    assert EmailSplit(s, i, j);
  }

  lemma {:induction false} PatternToEmailValid(s: string, i: int, j: int)
    requires EmailSplit(s, i, j)
    ensures EmailValid(s)
  {
    SliceChars(s, 0, i);
    SliceChars(s, i + 1, j);
    SliceChars(s, j + 1, |s|);
    assert s[..i] == s[0..i] && s[j + 1..] == s[j + 1..|s|];
    forall k | 0 <= k < |s| ensures !IsWhitespace(s[k]) && (k != i ==> s[k] != '@') {
      if k < i {
        assert PlainChar(s[0..i][k]);
      } else if i < k < j {
        assert PlainChar(s[i + 1..j][k - i - 1]);
      } else if j < k {
        assert PlainChar(s[j + 1..|s|][k - j - 1]);
      }
    }
    var d := s[i + 1..];
    assert '@' !in s[..i] by {
      forall k | 0 <= k < i ensures s[..i][k] != '@' {
        assert s[..i][k] == s[k];
      }
    }
    assert '@' !in d by {
      forall k | 0 <= k < |d| ensures d[k] != '@' {
        assert d[k] == s[i + 1 + k];
      }
    }
    assert d[j - i - 1] == '.';
    assert HasInnerDot(d);
  }

  /** The description in words accepts exactly what the regular expression matches. */
  lemma EmailValidMatchesPattern(s: string)
    ensures EmailValid(s) <==> MatchesEmailPattern(s)
  {
    if EmailValid(s) {
      EmailValidToPattern(s);
    }
    if MatchesEmailPattern(s) {
      var i, j :| EmailSplit(s, i, j);
      PatternToEmailValid(s, i, j);
    }
  }

  // ---- building a user ----

  /** The values a user document is built from; a missing path is None. */
  datatype UserInput = UserInput(
    name: Option<string>,
    email: Option<string>,
    password: Option<string>,
    role: Option<string>)

  /** The paths whose validators reject the input, in schema order. Validators other than
      `required` do not run on a missing value. */
  function UserIssues(input: UserInput): (r: seq<string>)
    ensures "email" in r <==> input.email.Some? && !EmailValid(input.email.value)
    ensures "password" in r <==> input.password.Some? && |input.password.value| < 8
    ensures "role" in r <==> input.role.Some? && ParseRole(input.role.value).None?
    ensures "name" in r <==> input.name.Some? && |input.name.value| < 3
  {
    (if input.email.Some? && !EmailValid(input.email.value) then ["email"] else []) +
    (if input.password.Some? && |input.password.value| < 8 then ["password"] else []) +
    (if input.role.Some? && ParseRole(input.role.value).None? then ["role"] else []) +
    (if input.name.Some? && |input.name.value| < 3 then ["name"] else [])
  }

  /** `new User(input)` followed by validation: the user with its defaults (role USER,
      not verified, not a guest, version 0), or the failing paths. */
  function NewUser(id: string, input: UserInput): (r: Result<User, seq<string>>)
    ensures r.Ok? <==> UserIssues(input) == []
    ensures r.Err? ==> r.error == UserIssues(input)
    ensures r.Ok? ==>
      var u := r.value;
      u.id == id && u.name == input.name && u.email == input.email &&
      u.password == input.password &&
      (if input.role.Some? then RoleName(u.role) == input.role.value else u.role == USER) &&
      !u.isVerified && !u.isGuest && u.version == 0
  {
    var issues := UserIssues(input);
    if issues != [] then Err(issues)
    else
      var role := if input.role.Some? then ParseRole(input.role.value).value else USER;
      Ok(User(id, input.name, input.email, input.password, role, false, false, 0))
  }

  // ---- plain objects ----

  /** A value in a plain object. */
  datatype Value = Str(s: string) | Bool(b: bool) | Num(n: int)

  /** `toObject()` of a user read from the store. The password is there only when the query
      asked for it with `select("+password")`. */
  function ToObject(u: User, passwordSelected: bool): (r: map<string, Value>)
    ensures "password" in r <==> passwordSelected && u.password.Some?
    ensures "email" in r <==> u.email.Some?
    ensures "name" in r <==> u.name.Some?
    ensures "__v" in r && "_id" in r && "role" in r && "isVerified" in r && "isGuest" in r
    ensures r["_id"] == Str(u.id) && r["role"] == Str(RoleName(u.role))
  {
    var base := map[
      "_id" := Str(u.id), "role" := Str(RoleName(u.role)), "isVerified" := Bool(u.isVerified),
      "isGuest" := Bool(u.isGuest), "__v" := Num(u.version)];
    var withName := if u.name.Some? then base["name" := Str(u.name.value)] else base;
    var withEmail := if u.email.Some? then withName["email" := Str(u.email.value)] else withName;
    if passwordSelected && u.password.Some? then withEmail["password" := Str(u.password.value)]
    else withEmail
  }

  /** The keys never shown outside. */
  const SecretKeys: set<string> := {"password", "__v"}

  /** What the `toJSON` transform leaves of an object. */
  function WithoutSecrets(m: map<string, Value>): (r: map<string, Value>)
    ensures "password" !in r && "__v" !in r
    ensures forall k :: k in m && k !in SecretKeys ==> k in r && r[k] == m[k]
    ensures forall k :: k in r ==> k in m
  {
    m - SecretKeys
  }

  /** A plain object whose keys are deleted in place. */
  class DocObject {
    var fields: map<string, Value>

    constructor (m: map<string, Value>)
      ensures fields == m
    {
      fields := m;
    }

    /** `delete obj[key]`. */
    method Delete(key: string)
      modifies this
      ensures fields == old(fields) - {key}
    {
      fields := fields - {key};
    }

    /** The schema's `toJSON` transform: deletes `password` and `__v` from `ret` and returns it. */
    method ToJSON() returns (ret: map<string, Value>)
      modifies this
      ensures fields == WithoutSecrets(old(fields))
      ensures ret == fields
    {
      Delete("password");
      Delete("__v");
      ret := fields;
    }
  }

  /** Whatever a user's object held, its JSON form carries no password and no version. */
  lemma JsonHidesPassword(u: User, passwordSelected: bool)
    ensures var j := WithoutSecrets(ToObject(u, passwordSelected));
      "password" !in j && "__v" !in j && j["_id"] == Str(u.id) && j["role"] == Str(RoleName(u.role))
  {
  }
}
