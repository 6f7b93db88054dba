# lifestyle-server record behaviour, in Dafny

The server keeps two kinds of records for a nutrition tracker: users and
the food entries they log. This project models the behaviour attached to
those two record schemas, detached from the document database:

- **Entry** (`models/entry.ts`): the fields a stored entry must carry
  (date, time, calories and the owning user; the description is optional);
  the `clockTime` display string, which turns a seconds-in-day `time` into
  `H:MM` text; and the `toJSON` transform, which rewrites an entry's plain
  object in place by adding `id` (the text of `_id`) and deleting `_id`
  and `_v`.
- **User** (`models/user.ts`): the required fields, the `gender` number
  restricted to 0 and 1 with default 0, the username lower-cased on
  assignment and unique across the collection, the `fullName` and
  `getGender` derived values, and the pre-save step that replaces the
  password by its hash when it is marked modified.

Modules:

- `Results` (`results.dfy`): `Option`, `Result` and `Outcome`, standing
  for the source's thrown errors.
- `Strings` (`strings.dfy`): decimal text of integers below 10^21 in
  magnitude, as a template literal or `toString()` renders them; the
  reading back of decimal text; and the first index of a separator.
- `ObjectIds` (`objectids.dfy`): twelve-byte identifiers and their
  lower-case hex text, with the reading back of that text.
- `Entries` (`entries.dfy`): required fields, clock time, and the JSON
  transform. The transform is a method on a `JsonObject` class whose
  dictionary field it rewrites; it is specified by the function
  `ProjectToJson`.
- `Users` (`users.dfy`): lower-casing, gender, validation, `fullName`,
  the pre-save hook, and the unique-username table. A `UserDocument`
  class holds a document's fields and its set of modified paths. A
  `UserTable` class holds the collection keyed by lower-cased username.

Points where the model follows the code exactly, including its quirks:

- The minute field is padded when it is not greater than 10. So exactly
  ten minutes renders as `"010"` (600 seconds gives `"0:010"`). The model
  keeps this; see "Findings".
- The hour is not padded. Midnight renders as `"0:00"`.
- The transform deletes `_v`, not `__v`, so a `__v` key survives.
- When `_id` is undefined or null, `_id.toString()` throws before
  anything is written. The model returns an error and leaves the
  dictionary unchanged.
- `fullName` joins the names with JavaScript's `+`. An undefined last name
  therefore shows as `"undefined"`.
- `getGender` says `"Male"` for every positive number, not only for 1.
- A required string field is satisfied only by a non-empty string. This
  is the document library's rule for `required` on strings.
- The hash function is a parameter `hash: string -> string`. Nothing is
  assumed about it except, in `Users.SaveTwice` and
  `Users.ResaveAfterReassigningHash`, that it never returns the empty
  string.

Facts about the code that bound the model:

- No minimum username length is set (models/user.ts:13-18).
- Gender is stored as the numbers 0 and 1 (models/user.ts:28-33).
- models/user.ts defines no JSON transform for users.
- Assigning a path on a document marks it modified when the document is
  new or the value changes. This is the document library's rule. After a
  save the document is no longer new, so assigning a saved user its
  current password marks nothing and the hook does not hash it again.

## Model

| member | source | states |
|---|---|---|
| `Strings.NatToString` | models/entry.ts:49 | The text of a number is at least one decimal digit, with no leading zero. |
| `Strings.DecimalRoundTrip` | models/entry.ts:49 | Reading back the text of a number gives the number. |
| `Strings.NatToStringLength` | models/entry.ts:47-48 | The text is one digit long exactly below 10, and two digits long exactly from 10 to 99. |
| `Strings.IntToString` | models/entry.ts:38 | A number's text starts with `-` exactly when it is negative. The digits after the sign read back as its magnitude and have no leading zero. |
| `ObjectIds.ToHexString` | models/entry.ts:38 | An identifier's text has two lower-case hex characters per byte, so 24 for a stored identifier. |
| `ObjectIds.HexRoundTrip` | models/entry.ts:38 | The hex text of the bytes reads back as the same bytes. |
| `ObjectIds.ToHexStringInjective` | models/entry.ts:38 | Two identifiers with the same text are the same identifier. |
| `Entries.MissingEntryPaths` | models/entry.ts:6-26 | Each of date, time, calories and user is reported missing exactly when it is undefined, at most once; the description is never reported. |
| `Entries.ValidEntryIff` | models/entry.ts:7-24 | An entry is valid exactly when date, time, calories and user are present; removing the description never changes validity. |
| `Entries.Hour` | models/entry.ts:46 | The hour is the number of whole hours in `time`; it is at most 23 for a seconds-in-day value below 86400. |
| `Entries.Minute` | models/entry.ts:47 | The minute is the number of whole minutes past that hour; it is below 60. |
| `Entries.MinuteField` | models/entry.ts:47-48 | The minute field reads back as the minute. Below 10 it is two characters starting with `0`. At 10 it is `"010"`. From 11 to 99 it is two digits with no leading zero. |
| `Entries.ClockTime` | models/entry.ts:45-50 | The display string contains exactly one colon. Split there, it reads back as the hour and the minute. The hour is not zero-padded. |
| `Entries.ClockTimeTenMinutes` | models/entry.ts:47-48 | At ten minutes past any hour the display string ends in `":010"`. |
| `Entries.ClockTimeTenPastMidnight` | models/entry.ts:45-50 | 600 seconds renders as `"0:010"`. |
| `Entries.ClockTimeMidnight` | models/entry.ts:46-49 | 0 seconds renders as `"0:00"`. |
| `Entries.ClockTimeTwoPm` | models/entry.ts:45-50 | 50400 seconds renders as `"14:00"`. |
| `Entries.IntendedMinuteField` | models/entry.ts:47-48 | Corrected rule: the minute field reads back as the minute and is always two characters for minutes below 100. |
| `Entries.IntendedClockTime` | models/entry.ts:45-50 | Corrected display string: reads back as hour and minute; the colon is always third from the end. |
| `Entries.ClockTimeDiffersOnlyAtTen` | models/entry.ts:47-48 | The getter as written equals the corrected format exactly when the minute is not 10. |
| `Entries.ToText` | models/entry.ts:38 | `toString()` throws exactly on null; an identifier gives its hex text and a string gives itself. |
| `Entries.ProjectToJson` | models/entry.ts:36-42 | The transform fails exactly when `_id` is undefined or null. On success the keys are the old keys without `_id` and `_v`, plus `id`. `id` holds the text of the old `_id`, and every other key keeps its value. |
| `Entries.ProjectKeepsDoubleUnderscoreV` | models/entry.ts:40 | A `__v` key survives the transform with its value. |
| `Entries.ProjectIdRecoversObjectId` | models/entry.ts:38 | For a stored identifier, `id` is 24 characters that read back as the identifier's bytes. |
| `Entries.JsonObject.ApplyTransform` | models/entry.ts:37-41 | Rewrites the object's dictionary in place to `ProjectToJson` of the old one. On failure it reports the error and the dictionary is unchanged. |
| `Users.Lower` | models/user.ts:17 | Lower-cased text has the same length and no upper-case letter. Every other character is kept, and each upper-case letter becomes its lower-case form. |
| `Users.LowerIdempotent` | models/user.ts:17 | Lower-casing twice is lower-casing once. |
| `Users.LowerFixedIff` | models/user.ts:17 | Lower-casing leaves text unchanged exactly when it holds no upper-case letter. |
| `Users.GenderCode` | models/user.ts:36-39 | Female is 0 and Male is 1. |
| `Users.GenderFromCode` | models/user.ts:28-33 | A stored number names a gender exactly when it is 0 or 1, and then the gender's code is that number. |
| `Users.GenderName` | models/user.ts:53-55 | `getGender` is `"Male"` exactly when the number is positive, and `"Female"` exactly otherwise. |
| `Users.GenderNameOfEnum` | models/user.ts:36-55 | `getGender` gives `"Male"` for `Gender.Male` and `"Female"` for `Gender.Female`; each code decodes back to its enum member. |
| `Users.GivenPaths` | models/user.ts:81 | On a new document the paths marked modified are exactly those the input defines: firstname, lastname, username, password and gender each exactly when given. The entries path is never among them. |
| `Users.Normalise` | models/user.ts:7-34 | The stored username is the lower-cased input and stays fixed under lower-casing. Gender defaults to 0 when undefined. Entries start empty. The other fields are taken as given. |
| `Users.UserErrors` | models/user.ts:7-34 | Firstname, username and password are each reported as required exactly when undefined or empty. Gender is reported exactly when it is neither 0 nor 1. Nothing else is reported. |
| `Users.ValidUserIff` | models/user.ts:8-33 | A user is valid exactly when firstname, username and password are non-empty and gender is 0 or 1; the last name never matters. |
| `Users.DefaultGenderValid` | models/user.ts:28-33 | A user built without a gender is never refused for its gender. |
| `Users.FullName` | models/user.ts:49-51 | The full name is the first name, one space, then the last name, each shown as `"undefined"` when undefined. |
| `Users.SplitName` | models/user.ts:49-51 | Splitting at the first space gives a first part without a space; joining the parts with a space gives back the text. |
| `Users.FullNameSplits` | models/user.ts:49-51 | For a first name without a space, splitting the full name recovers both names; an undefined last name comes back as `"undefined"`. |
| `Users.AfterPreSave` | models/user.ts:80-84 | The hook changes no field but the password. A password marked modified becomes its hash; otherwise the record is unchanged. |
| `Users.ResaveDoesNotRehash` | models/user.ts:81 | With no path marked modified, a second run of the hook leaves the hashed record as it is. |
| `Users.UserDocument.constructor` | models/user.ts:7-34 | A new document holds the normalised input, is marked new, and has the paths the input defines marked modified. |
| `Users.UserDocument.SetPassword` | models/user.ts:19-22 | Assigning a password changes only the password. It is marked modified when the document is new or the value differs; otherwise the marks are unchanged. |
| `Users.UserDocument.SetUsername` | models/user.ts:13-18 | Assigning a username stores its lower-cased form. It is marked modified when the document is new or that form differs from the current username; otherwise the marks are unchanged. |
| `Users.UserDocument.PreSave` | models/user.ts:80-84 | The document's fields become `AfterPreSave` of the old fields under the current modified marks. |
| `Users.UserDocument.Save` | models/user.ts:80-84 | An invalid document is refused with its validation errors and left untouched. A valid one is run through the hook, stops being new, has its modified marks cleared, and the hashed record is returned. |
| `Users.SaveTwice` | models/user.ts:80-84 | The first save of a new user succeeds exactly when it is valid and stores the hash of the given password. A second save returns the same record, so the password is not hashed again. |
| `Users.ResaveAfterReassigningHash` | models/user.ts:80-84 | After a successful first save, assigning the stored hash back to the password and saving again returns the same record: the hash is not hashed a second time. |
| `Users.InsertUser` | models/user.ts:13-18 | Inserting fails, naming the lower-cased username, exactly when that name is already a key. On success the table gains that one key, filed with the record, and every other record is kept. |
| `Users.InsertKeepsKeyed` | models/user.ts:15-17 | Inserting keeps every record filed under its lower-cased username. |
| `Users.KeyedUsernamesUnique` | models/user.ts:15 | In such a table no two records share a lower-cased username. |
| `Users.CaseVariantRefused` | models/user.ts:15-17 | After a user is inserted, a username differing from it only in letter case is refused. |
| `Users.UserTable.Insert` | models/user.ts:15-17 | Inserting into the table keeps it keyed by lower-cased username. A taken name fails and leaves the table unchanged; otherwise the table becomes `InsertUser` of the old one. |

## Left out

- `index.ts`: the server setup, the database connection, its settings and the listening call are I/O. The two resolvers return a fixed array and its length, so they have no logic to model.
- `utils/config.ts`: reading environment variables is configuration I/O.
- bcrypt: salting, the cost factor of 10 and hash verification are not modelled. The hash is an opaque function parameter. The hook's asynchronous form and its unused `_next` callback are left out.
- `findUser` and `findMyEntries` (models/entry.ts:64-66, models/user.ts:70-72): these are database queries with population, done by a library that is not part of this model.
- Entries.ClockTime: takes a natural number of seconds. JavaScript's results for negative or fractional `time` (floating-point `Math.floor`, a sign-keeping `%`) are not modelled. Nor are values of `time` above 2^53, which a JavaScript number does not hold exactly, or an hour of 10^21 or more, which JavaScript writes in exponent notation (`"1e+21"`).
- Users.Lower: lower-cases only the ASCII letters A to Z. JavaScript's `toLowerCase` also maps other Unicode letters.
- Uniqueness is modelled as a check on insert into a table keyed by the lower-cased name. The database index that enforces it is not modelled. Updating an existing user, including a change of username, is not modelled.
- Users.UserTable.Insert: requires a valid record, since records reach the collection only through a save that has validated them.
- Users.SaveTwice: assumes the hash is never the empty string, as a bcrypt hash never is. Without that, a second save could fail the `required` check on the password.
- Users.Normalise: user fields are either a value or undefined; a JavaScript `null` is not modelled. The same holds for Users.FullName and Users.UserErrors. With `gender: null` the default of 0 does not apply, since it applies only to undefined, so `required` refuses the user. With a null last name, `fullName` gives `"<first> null"`.
- Users.ResaveAfterReassigningHash: makes the same assumption about the hash, for the same reason.
- Type casting by the document library (a string given for a number or a date) is not modelled: inputs are typed.
- The `required` flag on each element of a user's `entries` array (models/user.ts:23-27) is not modelled. Elements are typed identifiers, so a null element cannot be written.
- Entries.ToText: the value type of the JSON dictionary has no date or array variant, and numbers are integers. A number of magnitude 10^21 or more, which JavaScript writes in exponent notation, and an integer beyond 2^53, which a JavaScript number does not hold exactly, are rendered as plain decimal digits by the model.

## Findings

| source | as written | input that shows it | evidently intended | confidence | as-written member | corrected member |
|---|---|---|---|---|---|---|
| models/entry.ts:47-48 | the minute field is padded unless the minute is greater than 10, so 10 is padded too | `time` = 600 gives `"0:010"` | `"0:10"`: pad only below 10, giving a two-digit minute field | high; not executed | `Entries.ClockTimeTenPastMidnight` | `Entries.IntendedClockTime` |

`Entries.ClockTime` stays as written, because it models the getter.
`Entries.ClockTimeDiffersOnlyAtTen` shows that the two formats differ
exactly at minute 10.
