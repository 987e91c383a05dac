/** The `User` schema: field constraints (required, length bounds, the email
    pattern), the role list, and the pre-save hook that stamps `updated_at`. */
module UserModel {
  import opened Common
  import opened Text
  import opened DateHelper
  import opened AppointmentModel

  /** A stored user. `appointments` is the embedded array the corrected
      `patientController` operations work on; models/user.js does not declare it. */
  datatype User = User(
    id: UserId,
    name: Option<string>,
    dob: Option<Date>,
    gender: Option<string>,
    mobile: Option<string>,
    email: Option<string>,
    emailVerifiedAt: Option<Instant>,
    password: Option<string>,
    rememberToken: Option<string>,
    createdAt: Instant,
    updatedAt: Instant,
    roles: seq<RoleId>,
    appointments: seq<EmbeddedAppointment>)

  const MaxNameLength := 150
  const MaxEmailLength := 320
  const MinPasswordLength := 8

  // The email pattern, one alternative at a time.

  /** Characters allowed in an unquoted local-part atom: anything but
      `<>()[]\.,;:@"` and whitespace. */
  predicate AtomChar(c: char) {
    c !in "<>()[]\\.,;:@\"" && !IsWhitespace(c)
  }

  /** Characters the regular-expression `.` matches (all but line terminators). */
  predicate AnyButLineTerminator(c: char) {
    c != '\n' && c != '\r' && c != '\U{2028}' && c != '\U{2029}'
  }

  /** Non-empty atoms joined by single dots. */
  predicate DotAtom(l: string) {
    var atoms := Split(l, '.');
    forall k :: 0 <= k < |atoms| ==> Atom(atoms[k])
  }

  predicate Atom(a: string) {
    a != [] && forall i :: 0 <= i < |a| ==> AtomChar(a[i])
  }

  /** A double-quoted local part with at least one character inside. */
  predicate QuotedLocal(l: string) {
    |l| >= 3 && l[0] == '"' && l[|l| - 1] == '"'
    && forall i :: 1 <= i < |l| - 1 ==> AnyButLineTerminator(l[i])
  }

  predicate LocalPart(l: string) {
    DotAtom(l) || QuotedLocal(l)
  }

  predicate IsDigit(c: char) {
    '0' <= c <= '9'
  }

  predicate IsAsciiLetter(c: char) {
    'a' <= c <= 'z' || 'A' <= c <= 'Z'
  }

  /** A bracketed dotted quad of one to three digits per part. */
  predicate AddressLiteral(d: string) {
    |d| >= 2 && d[0] == '[' && d[|d| - 1] == ']'
    && var parts := Split(d[1..|d| - 1], '.');
       |parts| == 4
       && forall k :: 0 <= k < 4 ==> 1 <= |parts[k]| <= 3 && forall i :: 0 <= i < |parts[k]| ==> IsDigit(parts[k][i])
  }

  /** One or more labels of letters, digits and `-`, each followed by a dot,
      then a top-level label of at least two letters. */
  predicate HostName(d: string) {
    var labels := Split(d, '.');
    var n := |labels| - 1;
    n >= 1 && (forall k :: 0 <= k < n ==> HostLabel(labels[k])) && TopLabel(labels[n])
  }

  predicate HostLabel(l: string) {
    l != [] && forall i :: 0 <= i < |l| ==> IsAsciiLetter(l[i]) || IsDigit(l[i]) || l[i] == '-'
  }

  predicate TopLabel(l: string) {
    |l| >= 2 && forall i :: 0 <= i < |l| ==> IsAsciiLetter(l[i])
  }

  predicate DomainPart(d: string) {
    AddressLiteral(d) || HostName(d)
  }

  /** The `match` validator on `email`: some `@` splits it into a local part and a domain. */
  predicate EmailMatches(s: string) {
    exists i :: 0 <= i < |s| && s[i] == '@' && LocalPart(s[..i]) && DomainPart(s[i + 1..])
  }

  /** A domain never contains `@`, so the split is at the last `@`. */
  lemma DomainHasNoAt(d: string)
    requires DomainPart(d)
    ensures '@' !in d
  {
    if '@' in d {
      var j :| 0 <= j < |d| && d[j] == '@';
      if AddressLiteral(d) {
        var inner := d[1..|d| - 1];
        assert inner[j - 1] == '@';
        SplitKeepsChar(inner, '.', j - 1);
      } else {
        SplitKeepsChar(d, '.', j);
      }
    }
  }

  /** A character other than the separator lands, unchanged, in some piece. */
  lemma {:induction false} SplitKeepsChar(s: string, d: char, j: int)
    requires 0 <= j < |s| && s[j] != d
    ensures exists k, i :: 0 <= k < |Split(s, d)| && 0 <= i < |Split(s, d)[k]| && Split(s, d)[k][i] == s[j]
  {
    var r := Split(s, d);
    if j == 0 {
      assert r[0][0] == s[0];
    } else {
      SplitKeepsChar(s[1..], d, j - 1);
      var rest := Split(s[1..], d);
      var k, i :| 0 <= k < |rest| && 0 <= i < |rest[k]| && rest[k][i] == s[j];
      if s[0] == d {
        assert r[k + 1][i] == s[j];
      } else if k == 0 {
        assert r[0][i + 1] == s[j];
      } else {
        assert r[k][i] == s[j];
      }
    }
  }

  lemma EmailExampleAccepted()
    ensures EmailMatches("jo.ann" + "@" + "clinic.in")
  {
    ExampleLocalPart();
    ExampleDomain();
    AtSplit("jo.ann", "clinic.in");
  }

  /** A local part and a domain joined by `@` form a matching address. */
  lemma AtSplit(l: string, d: string)
    requires LocalPart(l) && DomainPart(d)
    ensures EmailMatches(l + ['@'] + d)
  {
    var s := l + ['@'] + d;
    assert s[..|l|] == l && s[|l| + 1..] == d && s[|l|] == '@';
  }

  lemma ExampleLocalPart()
    ensures DotAtom("jo.ann")
  {
    SplitFirst("jo", '.', "ann");
    SplitNoSeparator("ann", '.');
    assert "jo" + ['.'] + "ann" == "jo.ann";
    var atoms := Split("jo.ann", '.');
    assert atoms == ["jo", "ann"];
    ExampleAtoms();
  }

  lemma ExampleAtoms()
    ensures Atom("jo") && Atom("ann")
  {
    assert AtomChar('j') && AtomChar('o');
    assert AtomChar('a') && AtomChar('n');
  }

  lemma ExampleDomain()
    ensures HostName("clinic.in")
  {
    SplitFirst("clinic", '.', "in");
    SplitNoSeparator("in", '.');
    assert "clinic" + ['.'] + "in" == "clinic.in";
    var labels := Split("clinic.in", '.');
    assert labels == ["clinic", "in"];
    assert HostLabel("clinic") && TopLabel("in");
  }

  /** A bare host name without a top-level label is refused. */
  lemma EmailExampleRefused()
    ensures !EmailMatches("jo@localhost")
  {
    NotADomain();
    assert '@' !in "jo" && '@' !in "localhost";
    assert "jo@localhost" == "jo" + ['@'] + "localhost";
    OneAt("jo", "localhost");
  }

  /** With a single `@`, the address matches only if what follows it is a domain. */
  lemma OneAt(l: string, d: string)
    requires '@' !in l && '@' !in d && !DomainPart(d)
    ensures !EmailMatches(l + ['@'] + d)
  {
    var s := l + ['@'] + d;
    assert s[|l| + 1..] == d;
  }

  lemma NotADomain()
    ensures !DomainPart("localhost")
  {
    SplitNoSeparator("localhost", '.');
    assert "localhost"[0] != '[';
  }

  /** The schema paths whose validators reject a stored user. The length
      bounds compare JavaScript's `length`, which counts UTF-16 code units. */
  function FailingPaths(u: User): (r: set<string>)
    ensures r == {} <==> (RequiredString(u.name) && Utf16Length(u.name.value) <= MaxNameLength
                          && RequiredString(u.gender) && RequiredString(u.mobile)
                          && RequiredString(u.email) && Utf16Length(u.email.value) <= MaxEmailLength
                          && EmailMatches(u.email.value)
                          && RequiredString(u.password) && Utf16Length(u.password.value) >= MinPasswordLength)
  {
    (if RequiredString(u.name) && Utf16Length(u.name.value) <= MaxNameLength then {} else {"name"})
    + (if RequiredString(u.gender) then {} else {"gender"})
    + (if RequiredString(u.mobile) then {} else {"mobile_no"})
    + (if RequiredString(u.email) && Utf16Length(u.email.value) <= MaxEmailLength && EmailMatches(u.email.value)
       then {} else {"email"})
    + (if RequiredString(u.password) && Utf16Length(u.password.value) >= MinPasswordLength then {} else {"password"})
  }

  /** Four characters above the Basic Multilingual Plane are eight code
      units: enough for the password's `minlength`, while four ordinary
      characters are not. */
  lemma AstralPasswordLength()
    ensures Utf16Length("\U{1F600}\U{1F600}\U{1F600}\U{1F600}") == MinPasswordLength
    ensures Utf16Length("abcd") < MinPasswordLength
  {
    Utf16LengthConcat("\U{1F600}\U{1F600}", "\U{1F600}\U{1F600}");
    assert "\U{1F600}\U{1F600}\U{1F600}\U{1F600}" == "\U{1F600}\U{1F600}" + "\U{1F600}\U{1F600}";
  }

  /** `user.save()`: validation, then the pre-save hook sets `updated_at` to the
      save time and touches nothing else. */
  function Save(u: User, now: Instant): (r: Validated<User>)
    ensures r.Valid? <==> FailingPaths(u) == {}
    ensures r.Invalid? ==> r.paths == FailingPaths(u)
    ensures r.Valid? ==> r.value.updatedAt == now && r.value.(updatedAt := u.updatedAt) == u
  {
    var paths := FailingPaths(u);
    if paths != {} then Invalid(paths) else Valid(u.(updatedAt := now))
  }

  /** Neither the role list, the embedded array nor the timestamps have a
      validator: changing them never changes whether a save succeeds. */
  lemma SaveIgnoresRoles(u: User, roles: seq<RoleId>, t: Instant)
    ensures FailingPaths(u.(roles := roles, updatedAt := t)) == FailingPaths(u)
  {
  }

  /** Saving a saved user again at the same time is a no-op. */
  lemma SaveIdempotent(u: User, now: Instant)
    requires Save(u, now).Valid?
    ensures Save(Save(u, now).value, now) == Save(u, now)
  {
    SaveIgnoresRoles(u, u.roles, now);
  }
}
