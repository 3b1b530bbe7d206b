# hap — deterministic password derivation and per-domain notes, in Dafny

`hap` is a small Go command-line program (`hap.go`). Given a domain, an
optional salt and a master password it derives a reproducible password:
HMAC-SHA1 keyed with the master password over `domain + salt`, encoded in
standard Base64 (section 4 of RFC 4648) and cut to the requested length
(default 14). It also keeps a notes file mapping a 14-digit timestamp key
(`20060102150405` layout) to a note `{domain, text}`; each run lists the
domain's notes in key order and optionally adds one.

The model follows the program's structure:

- `wrappers.dfy` — `Option`.
- `base64.dfy` (module `Base64`) — the standard Base64 encoder, a reference
  decoder and the round trip between them.
- `gostrings.dfy` (module `GoStrings`) — the Go library behaviour main relies
  on: `strings.TrimRight(s, "\n")`, `strings.TrimSpace`, `strconv.Atoi`
  (64-bit `int`) and the string order that `sort.Strings` uses.
- `derive.dfy` (module `Derive`) — `gen_pwd` and the truncation
  `gen_pwd(domain+salt, master)[:pass_length]`. HMAC-SHA1 is a parameter
  `mac: (key, message) -> Digest`, where a `Digest` is any 20-byte sequence.
- `notes.dfy` (module `Notes`) — `Note`, the `NoteCollection` class whose
  `pool` map is updated in place, `display_notes` as a read-only method
  (a loop collecting the domain's keys, the sort, a loop pairing keys with
  texts) and `add_note` as a method that updates `pool`.
- `cli.dfy` (module `Cli`) — `main` as a method that updates the domain,
  length, salt and note step by step and returns the listing shown and the
  way the run ends.

Strings are sequences of Unicode scalar values. Go compares strings by their
UTF-8 bytes, and that order is the same as comparing code points, so
`GoStrings.Below` compares characters.

Three behaviours of the code that the model keeps as they are:

- A length above 28 is not clamped. `gen_pwd(...)[:pass_length]` panics for a
  length outside 0..28, and so does a negative length. `Derive.Prefix`
  requires the range, and `Cli.Run` ends in `Panicked` outside it.
- The notes are listed before the length argument is parsed (line 100 runs
  before line 103). So a run with a non-numeric length still shows the
  listing before it exits.
- With an empty argument vector (no program name) `main` skips the usage
  check and runs with domain `""` and length 14. `Cli.Run` does the same.

## Model

| member | source | states |
|---|---|---|
| `Base64.Encode` | hap.go:85 | the encoding of n bytes has 4*ceil(n/3) characters |
| `Base64.EncodeAlphabet` | hap.go:85 | all characters of the encoding of n bytes are from `A-Z a-z 0-9 + /` except the last (3 - n mod 3) mod 3, which are `=` |
| `Base64.DecodeEncode` | hap.go:85 | decoding the encoding gives back the bytes (the encoding loses nothing) |
| `Base64.EncodeInjective` | hap.go:85 | different byte strings have different encodings |
| `Base64.IndexOfCharOf` | hap.go:85 | each 6-bit value maps to its own alphabet character |
| `Derive.GenPwd` | hap.go:81-86 | gen_pwd yields 28 characters: 27 from `A-Z a-z 0-9 + /` then one `=`, and it decodes back to the HMAC digest of the message under the key |
| `Derive.Prefix` | hap.go:134 | the slice `[:n]` is defined only for 0 <= n <= len and yields the length-n prefix |
| `Derive.Password` | hap.go:134 | the emitted password, defined for 0 <= pass_length <= 28, has exactly pass_length characters, is a prefix of gen_pwd(domain+salt, master), and uses only alphabet characters except a final `=` at position 28 |
| `Derive.SplitInsensitive` | hap.go:134 | any (domain, salt) pairs with equal concatenations derive the same password under the same master password |
| `Derive.SplitsCollide` | hap.go:134 | the distinct splits ("ab", "c") and ("a", "bc") derive the same password |
| `Derive.PasswordPrefixes` | hap.go:134 | a shorter password is a prefix of a longer one for the same inputs |
| `Derive.FullPasswordDeterminesDigest` | hap.go:81-86 | two equal 28-character passwords come from equal HMAC digests |
| `GoStrings.TrimRightNewlines` | hap.go:116-121 | the trimmed salt or note is a prefix of the line read, never ends in `\n`, and only `\n` characters were removed |
| `GoStrings.TrimReadLine` | hap.go:116-117 | a line read with its terminating `\n` trims back to the line |
| `GoStrings.TrimSpace` | hap.go:99 | the domain is the slice of the argument left after its leading and trailing white space; what remains starts and ends with a non-space |
| `GoStrings.TrimSpaceIdempotent` | hap.go:99 | trimming the domain twice changes nothing |
| `GoStrings.Atoi` | hap.go:103-111 | the length argument is accepted exactly when it is an optional `+`/`-` followed by at least one digit and its value fits in an int64; the accepted value is that decimal value (leading zeros and `+` allowed) |
| `GoStrings.AtoiExamples` | hap.go:105 | "14", "+14" and "014" read as 14, "-3" as -3; "", "-", " 14" and "1e3" are rejected |
| `GoStrings.AtoiFormatInt` | hap.go:105 | every int64 written in decimal is accepted as that value |
| `GoStrings.DigitsValueFormatNat` | hap.go:105 | the digits of a natural number read back as that number |
| `GoStrings.BelowIrreflexive` | hap.go:54 | no key sorts before itself |
| `GoStrings.BelowTransitive` | hap.go:54 | the key order is transitive |
| `GoStrings.BelowTotal` | hap.go:54 | any two distinct keys are ordered one way or the other |
| `Notes.Insert` | hap.go:54 | inserting a key into a sorted run keeps the same keys plus the new one |
| `Notes.SortStrings` | hap.go:54 | sort.Strings returns a permutation of its input |
| `Notes.SortSameElements` | hap.go:54 | sorting neither adds nor drops a key |
| `Notes.InsertAscending` | hap.go:54 | inserting a new key into a strictly ascending run keeps it strictly ascending |
| `Notes.SortAscending` | hap.go:54 | sorting distinct keys gives a strictly ascending sequence |
| `Notes.AscendingUnique` | hap.go:54 | two strictly ascending sequences with the same keys are equal, so map order does not affect the listing |
| `Notes.SelectKeys` | hap.go:46-52 | the collection loop gathers each key whose note has exactly the requested domain, once, and no other key |
| `Notes.ListingOfKeys` | hap.go:56-59 | pairing the sorted selected keys with their texts gives the domain's listing |
| `Notes.ListingUnique` | hap.go:44-59 | a store has one listing per domain |
| `Notes.NoteCollection.Display` | hap.go:44-59 | display_notes lists exactly the notes whose domain equals the argument, each once with its text, in strictly ascending key order; the store is not changed |
| `Notes.NoteCollection.AddNote` | hap.go:62-79 | afterwards the key maps to {domain, text}, replacing any same-second note; every other key keeps its note; the key set gains at most the new key |
| `Notes.NoteCollection.constructor` | hap.go:36-42 | the collection holds the loaded map |
| `Notes.SelectedAfterInsert` | hap.go:71-74 | after an insertion the note's key is selected for its domain and for no other domain; other keys' selection is unchanged |
| `Notes.InsertSize` | hap.go:71-74 | an insertion grows the store by one for a new key and not at all for an existing key; on an empty (nil) store it yields exactly one entry |
| `Notes.AddedNoteListedOnce` | hap.go:62-74 | after add_note the domain's listing contains the new note exactly once, with its text |
| `Cli.Run` | hap.go:88-137 | only a program name: usage exit with the store untouched; otherwise the listing of the trimmed domain is shown; a non-numeric length exits with the store untouched; otherwise the store gains the trimmed note only when it is non-empty; an empty master password aborts; a length in 0..28 yields Password(domain, trimmed salt, master, length) and any other length panics |

## Left out

- HMAC-SHA1 (`crypto/hmac`, `crypto/sha1`): a parameter of the derivation, any function from (key, message) to 20 bytes; the `[]byte` conversions of key and message are folded into it.
- Reading and writing the notes file (JSON, `ioutil`, the `HOME` lookup) and the absorbed errors: the store is the map passed to the `NoteCollection` constructor, and the map after `AddNote` is what would be written. A nil map is the empty map.
- `time.Now`, `time.Parse` and `time.Format`: the note key is a parameter, and a listed line carries its key where the program prints the formatted date.
- Terminal input (`bufio`, `gopass`), printing and the clipboard: the salt line, note line and master password are parameters, and the run's outcome is returned.
- `os.Exit` and the exit statuses: the `Exit` outcome names each way the run ends.
- `Notes.SortStrings`: models `sort.Strings` as a function on a sequence (insertion sort); the in-place reordering of the slice and Go's own sorting algorithm are not modelled, only their result.
- Go strings that are not valid UTF-8 are not modelled, because a model string is a sequence of Unicode scalar values.
- Collision resistance of HMAC-SHA1 (different inputs giving different passwords) is not stated: the HMAC is an arbitrary function here, and only the Base64 stage is shown to lose nothing (`Derive.FullPasswordDeterminesDigest`).
- `strconv.Atoi` on a 32-bit platform (where `int` has 32 bits) is not modelled.
