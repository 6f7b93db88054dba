/**
 * The behaviour attached to the user record: the schema's required fields,
 * the gender enum and its default, the lower-cased unique username, the
 * `fullName` and `getGender` derived values, and the pre-save step that
 * replaces a modified password by its hash.
 */
module Users {
  import opened Results
  import opened Strings
  import opened ObjectIds

  // ---------------------------------------------------------------------
  // Lower-casing of the username

  predicate IsUpper(c: char) {
    'A' <= c <= 'Z'
  }

  function LowerChar(c: char): char {
    if IsUpper(c) then (c as int + 32) as char else c
  }

  /** Lower-cased text: no upper-case letter remains, every other character is kept. */
  function Lower(s: string): (r: string)
    ensures |r| == |s|
    ensures forall i :: 0 <= i < |r| ==> !IsUpper(r[i])
    ensures forall i :: 0 <= i < |s| && !IsUpper(s[i]) ==> r[i] == s[i]
    ensures forall i :: 0 <= i < |s| && IsUpper(s[i]) ==> r[i] as int == s[i] as int + 32
    decreases |s|
  {
    if s == [] then [] else [LowerChar(s[0])] + Lower(s[1..])
  }

  /** Lower-casing twice is lower-casing once. */
  lemma LowerIdempotent(s: string)
    ensures Lower(Lower(s)) == Lower(s)
  {
  }

  /** Text is left as it is exactly when it holds no upper-case letter. */
  lemma LowerFixedIff(s: string)
    ensures Lower(s) == s <==> forall i :: 0 <= i < |s| ==> !IsUpper(s[i])
  {
  }

  // ---------------------------------------------------------------------
  // Gender

  /** The `Gender` enum: Female is 0, Male is 1. */
  datatype Gender = Female | Male

  function GenderCode(g: Gender): (c: int)
    ensures c == 0 <==> g == Female
    ensures c == 1 <==> g == Male
  {
    match g
    case Female => 0
    case Male => 1
  }

  /** The enum check on the stored number: only 0 and 1 name a gender. */
  function GenderFromCode(c: int): (g: Option<Gender>)
    ensures g.Some? <==> c == 0 || c == 1
    ensures g.Some? ==> GenderCode(g.value) == c
  {
    if c == 0 then Some(Female) else if c == 1 then Some(Male) else None
  }

  /** `getGender`: any positive code reads "Male", every other code "Female". */
  function GenderName(code: int): (name: string)
    ensures name == "Male" <==> code > 0
    ensures name == "Female" <==> code <= 0
  {
    if code > 0 then "Male" else "Female"
  }

  /** `getGender` agrees with the enum on both of its members. */
  lemma GenderNameOfEnum(g: Gender)
    ensures GenderName(GenderCode(g)) == (if g == Male then "Male" else "Female")
    ensures GenderFromCode(GenderCode(g)) == Some(g)
  {
  }

  // ---------------------------------------------------------------------
  // Records and validation

  datatype UserPath = FirstnamePath | LastnamePath | UsernamePath | PasswordPath | GenderPath | EntriesPath

  /** The fields a new user is built from; `None` is a field left undefined. */
  datatype UserInput = UserInput(
    firstname: Option<string>,
    lastname: Option<string>,
    username: Option<string>,
    password: Option<string>,
    gender: Option<int>)

  /** What a user document holds once the schema's setters and defaults have run. */
  datatype UserFields = UserFields(
    firstname: Option<string>,
    lastname: Option<string>,
    username: Option<string>,
    password: Option<string>,
    gender: int,
    entries: seq<ObjectId>)

  /** A string satisfies `required` when it is defined and not empty. */
  predicate Present(s: Option<string>) {
    s.Some? && s.value != ""
  }

  /** The paths an input defines; these are the ones marked modified on a new document. */
  function GivenPaths(input: UserInput): (paths: set<UserPath>)
    ensures FirstnamePath in paths <==> input.firstname.Some?
    ensures LastnamePath in paths <==> input.lastname.Some?
    ensures UsernamePath in paths <==> input.username.Some?
    ensures PasswordPath in paths <==> input.password.Some?
    ensures GenderPath in paths <==> input.gender.Some?
    ensures EntriesPath !in paths
  {
    (if input.firstname.Some? then {FirstnamePath} else {})
    + (if input.lastname.Some? then {LastnamePath} else {})
    + (if input.username.Some? then {UsernamePath} else {})
    + (if input.password.Some? then {PasswordPath} else {})
    + (if input.gender.Some? then {GenderPath} else {})
  }

  /**
   * Building a document: the username setter lower-cases, gender defaults
   * to 0, the entries list starts empty, the rest is taken as given.
   */
  function Normalise(input: UserInput): (u: UserFields)
    ensures u.username.Some? <==> input.username.Some?
    ensures u.username.Some? ==> Lower(u.username.value) == u.username.value
    ensures u.username.Some? ==> u.username.value == Lower(input.username.value)
    ensures input.gender.None? ==> u.gender == 0
    ensures input.gender.Some? ==> u.gender == input.gender.value
    ensures u.firstname == input.firstname && u.lastname == input.lastname
    ensures u.password == input.password && u.entries == []
  {
    var username := if input.username.Some? then Some(Lower(input.username.value)) else None;
    assert username.Some? ==> Lower(username.value) == username.value by {
      if input.username.Some? { LowerIdempotent(input.username.value); }
    }
    UserFields(
      input.firstname,
      input.lastname,
      username,
      input.password,
      if input.gender.Some? then input.gender.value else 0,
      [])
  }

  datatype UserError = Required(path: UserPath) | NotInEnum(path: UserPath, value: int)

  /** The validation errors of a document, in schema order. */
  function UserErrors(u: UserFields): (r: seq<UserError>)
    ensures Required(FirstnamePath) in r <==> !Present(u.firstname)
    ensures Required(UsernamePath) in r <==> !Present(u.username)
    ensures Required(PasswordPath) in r <==> !Present(u.password)
    ensures NotInEnum(GenderPath, u.gender) in r <==> GenderFromCode(u.gender).None?
    ensures forall e :: e in r ==>
      e == Required(FirstnamePath) || e == Required(UsernamePath)
      || e == Required(PasswordPath) || e == NotInEnum(GenderPath, u.gender)
  {
    (if Present(u.firstname) then [] else [Required(FirstnamePath)])
    + (if Present(u.username) then [] else [Required(UsernamePath)])
    + (if Present(u.password) then [] else [Required(PasswordPath)])
    + (if GenderFromCode(u.gender).Some? then [] else [NotInEnum(GenderPath, u.gender)])
  }

  predicate IsValidUser(u: UserFields) {
    UserErrors(u) == []
  }

  /**
   * Valid exactly when firstname, username and password are non-empty and
   * gender is 0 or 1; the last name never matters.
   */
  lemma ValidUserIff(u: UserFields)
    ensures IsValidUser(u) <==>
      Present(u.firstname) && Present(u.username) && Present(u.password) && (u.gender == 0 || u.gender == 1)
    ensures IsValidUser(u) <==> IsValidUser(u.(lastname := None))
  {
  }

  /** Leaving gender out of the input never makes a user invalid. */
  lemma DefaultGenderValid(input: UserInput)
    requires input.gender.None?
    ensures forall e :: e in UserErrors(Normalise(input)) ==> e.Required?
  {
  }

  // ---------------------------------------------------------------------
  // Derived values

  /** How JavaScript shows a string field in a concatenation: an undefined one reads "undefined". */
  function Shown(s: Option<string>): string {
    if s.Some? then s.value else "undefined"
  }

  /** `fullName`: the first name, one space, the last name. */
  function FullName(u: UserFields): (name: string)
    ensures |name| == |Shown(u.firstname)| + 1 + |Shown(u.lastname)|
    ensures name[..|Shown(u.firstname)|] == Shown(u.firstname)
    ensures name[|Shown(u.firstname)|] == ' '
    ensures name[|Shown(u.firstname)| + 1..] == Shown(u.lastname)
  {
    Shown(u.firstname) + " " + Shown(u.lastname)
  }

  /** Splits a full name at its first space. */
  function SplitName(s: string): (parts: (string, string))
    ensures ' ' in s ==> s == parts.0 + " " + parts.1 && ' ' !in parts.0
    ensures ' ' !in s ==> parts == (s, "")
  {
    if ' ' in s then
      var k := FirstIndex(s, ' ');
      assert s == s[..k] + " " + s[k + 1..];
      (s[..k], s[k + 1..])
    else (s, "")
  }

  /** A first name without a space is recovered from the full name, and so is the last name. */
  lemma FullNameSplits(u: UserFields)
    requires ' ' !in Shown(u.firstname)
    ensures SplitName(FullName(u)) == (Shown(u.firstname), Shown(u.lastname))
    ensures u.lastname.None? ==> SplitName(FullName(u)).1 == "undefined"
  {
  }

  // ---------------------------------------------------------------------
  // Pre-save password step

  /**
   * The record after the pre-save hook: the password is replaced by its
   * hash when it is marked modified, and nothing else changes.
   */
  function AfterPreSave(u: UserFields, modified: set<UserPath>, hash: string -> string): (r: UserFields)
    requires PasswordPath in modified ==> u.password.Some?
    ensures r.(password := u.password) == u
    ensures PasswordPath in modified ==> r.password == Some(hash(u.password.value))
    ensures PasswordPath !in modified ==> r == u
  {
    if PasswordPath in modified then u.(password := Some(hash(u.password.value))) else u
  }

  /** Once the modified marks are cleared, running the hook again changes nothing. */
  lemma ResaveDoesNotRehash(u: UserFields, modified: set<UserPath>, hash: string -> string)
    requires PasswordPath in modified ==> u.password.Some?
    ensures AfterPreSave(AfterPreSave(u, modified, hash), {}, hash) == AfterPreSave(u, modified, hash)
  {
  }

  /**
   * A user document: its fields, whether it has yet to be saved, and the
   * set of paths marked modified since the last save.
   */
  class UserDocument {
    var firstname: Option<string>
    var lastname: Option<string>
    var username: Option<string>
    var password: Option<string>
    var gender: int
    var entries: seq<ObjectId>
    var isNew: bool
    var modified: set<UserPath>

    function Fields(): UserFields
      reads this
    {
      UserFields(firstname, lastname, username, password, gender, entries)
    }

    /** A new document: setters and defaults applied, every given path marked modified. */
    constructor (input: UserInput)
      ensures Fields() == Normalise(input)
      ensures isNew && modified == GivenPaths(input)
    {
      var u := Normalise(input);
      firstname, lastname, username := u.firstname, u.lastname, u.username;
      password, gender, entries := u.password, u.gender, u.entries;
      isNew := true;
      modified := GivenPaths(input);
    }

    /**
     * Assigns a password. The path is marked modified when the document is
     * new or the value differs from the current one; assigning a saved
     * document its current value marks nothing.
     */
    method SetPassword(plaintext: string)
      modifies this`password, this`modified
      ensures Fields() == old(Fields()).(password := Some(plaintext))
      ensures old(isNew) || old(password) != Some(plaintext) ==> modified == old(modified) + {PasswordPath}
      ensures !old(isNew) && old(password) == Some(plaintext) ==> modified == old(modified)
    {
      if isNew || password != Some(plaintext) {
        modified := modified + {PasswordPath};
      }
      password := Some(plaintext);
    }

    /**
     * Assigns a username through the lower-casing setter. The path is marked
     * modified when the document is new or the lower-cased value differs
     * from the current one.
     */
    method SetUsername(name: string)
      modifies this`username, this`modified
      ensures Fields() == old(Fields()).(username := Some(Lower(name)))
      ensures old(isNew) || old(username) != Some(Lower(name)) ==> modified == old(modified) + {UsernamePath}
      ensures !old(isNew) && old(username) == Some(Lower(name)) ==> modified == old(modified)
    {
      var value := Some(Lower(name));
      if isNew || username != value {
        modified := modified + {UsernamePath};
      }
      username := value;
    }

    /** The pre-save hook: hash the password only when it is marked modified. */
    method PreSave(hash: string -> string)
      requires PasswordPath in modified ==> password.Some?
      modifies this`password
      ensures Fields() == AfterPreSave(old(Fields()), modified, hash)
    {
      if PasswordPath in modified {
        password := Some(hash(password.value));
      }
    }

    /**
     * Saving: validation first, which leaves the document untouched when it
     * fails; then the pre-save hook; then the document is no longer new and
     * its modified marks are cleared. The result is the record written.
     */
    method Save(hash: string -> string) returns (r: Result<UserFields, seq<UserError>>)
      modifies this
      ensures !IsValidUser(old(Fields())) ==>
        && r == Failure(UserErrors(old(Fields())))
        && Fields() == old(Fields()) && isNew == old(isNew) && modified == old(modified)
      ensures IsValidUser(old(Fields())) ==>
        && Fields() == AfterPreSave(old(Fields()), old(modified), hash)
        && r == Success(Fields()) && !isNew && modified == {}
    {
      var errors := UserErrors(Fields());
      if errors != [] {
        return Failure(errors);
      }
      PreSave(hash);
      isNew := false;
      modified := {};
      r := Success(Fields());
    }
  }

  /**
   * Registration followed by a second save: the first save stores the hash
   * of the given password, the second stores the same record again. A
   * hash is never empty, so the hashed password still passes `required`.
   */
  method SaveTwice(input: UserInput, hash: string -> string) returns (first: Result<UserFields, seq<UserError>>, second: Result<UserFields, seq<UserError>>)
    requires forall p :: hash(p) != ""
    ensures first.Success? <==> IsValidUser(Normalise(input))
    ensures first.Success? ==> first.value.password == Some(hash(input.password.value))
    ensures first.Success? ==> second == first
  {
    var doc := new UserDocument(input);
    first := doc.Save(hash);
    second := doc.Save(hash);
  }

  /**
   * Registration, then assigning the stored hash back to the saved document
   * and saving again: the value is unchanged, so nothing is marked modified
   * and the hash is not hashed a second time.
   */
  method ResaveAfterReassigningHash(input: UserInput, hash: string -> string) returns (first: Result<UserFields, seq<UserError>>, second: Result<UserFields, seq<UserError>>)
    requires forall p :: hash(p) != ""
    ensures first.Success? <==> IsValidUser(Normalise(input))
    ensures first.Success? ==> first.value.password == Some(hash(input.password.value))
    ensures first.Success? ==> second == first
  {
    var doc := new UserDocument(input);
    first := doc.Save(hash);
    if first.Success? {
      doc.SetPassword(first.value.password.value);
    }
    second := doc.Save(hash);
  }

  // ---------------------------------------------------------------------
  // Unique usernames

  datatype InsertError = DuplicateUsername(key: string)

  /** Every record is filed under its lower-cased username. */
  predicate KeyedByUsername(t: map<string, UserFields>) {
    forall k :: k in t ==> t[k].username.Some? && Lower(t[k].username.value) == k
  }

  /** Inserting: refused, with the table unchanged, when the lower-cased name is taken. */
  function InsertUser(t: map<string, UserFields>, u: UserFields): (r: Result<map<string, UserFields>, InsertError>)
    requires u.username.Some?
    ensures r.Failure? <==> Lower(u.username.value) in t
    ensures r.Failure? ==> r.error == DuplicateUsername(Lower(u.username.value))
    ensures r.Success? ==>
      && r.value.Keys == t.Keys + {Lower(u.username.value)}
      && r.value[Lower(u.username.value)] == u
      && forall k :: k in t ==> r.value[k] == t[k]
  {
    var key := Lower(u.username.value);
    if key in t then Failure(DuplicateUsername(key)) else Success(t[key := u])
  }

  /** Inserting keeps every record filed under its lower-cased username. */
  lemma InsertKeepsKeyed(t: map<string, UserFields>, u: UserFields)
    requires KeyedByUsername(t) && u.username.Some?
    requires InsertUser(t, u).Success?
    ensures KeyedByUsername(InsertUser(t, u).value)
  {
  }

  /** In a table so filed, no two records share a lower-cased username. */
  lemma KeyedUsernamesUnique(t: map<string, UserFields>, k1: string, k2: string)
    requires KeyedByUsername(t) && k1 in t && k2 in t && k1 != k2
    ensures Lower(t[k1].username.value) != Lower(t[k2].username.value)
  {
  }

  /** After a user is inserted, any name differing from it only in case is refused. */
  lemma CaseVariantRefused(t: map<string, UserFields>, u: UserFields, v: UserFields)
    requires u.username.Some? && v.username.Some?
    requires InsertUser(t, u).Success?
    requires Lower(v.username.value) == Lower(u.username.value)
    ensures InsertUser(InsertUser(t, u).value, v) == Failure(DuplicateUsername(Lower(u.username.value)))
  {
  }

  /** The user collection, keyed by lower-cased username. */
  class UserTable {
    var byUsername: map<string, UserFields>

    ghost predicate Valid()
      reads this
    {
      KeyedByUsername(byUsername)
    }

    constructor ()
      ensures Valid() && byUsername == map[]
    {
      byUsername := map[];
    }

    /** Inserts a saved record; a taken lower-cased name fails and leaves the table unchanged. */
    method Insert(u: UserFields) returns (r: Outcome<InsertError>)
      requires Valid() && IsValidUser(u)
      modifies this
      ensures Valid()
      ensures InsertUser(old(byUsername), u).Failure? ==>
        r == Fail(InsertUser(old(byUsername), u).error) && byUsername == old(byUsername)
      ensures InsertUser(old(byUsername), u).Success? ==>
        r == Pass && byUsername == InsertUser(old(byUsername), u).value
    {
      var key := Lower(u.username.value);
      if key in byUsername {
        return Fail(DuplicateUsername(key));
      }
      byUsername := byUsername[key := u];
      r := Pass;
    }
  }
}
