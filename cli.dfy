/**
 * The program's main: argument handling, the note listing, the salt and note
 * prompts, the optional note insertion, the master-password abort and the
 * final derivation. Terminal input arrives as parameters (the raw salt and
 * note lines, the master password); the clock as the key the note is stored
 * under; the outcome replaces os.Exit, printing and the clipboard.
 */
module Cli {
  import opened Wrappers
  import opened GoStrings
  import opened Derive
  import opened Notes

  datatype Exit =
    | Usage                      // only the program name: usage message, status 1
    | BadLength                  // second argument is not an integer: status 1
    | Aborted                    // empty master password: status 1
    | Panicked                   // the slice [:pass_length] is out of range: runtime panic
    | Copied(password: string)   // the password is copied to the clipboard and printed

  /** The password length main uses: 14 unless a second argument is given. */
  function LengthArgument(args: seq<string>): Option<int> {
    if |args| > 2 then Atoi(args[2]) else Some(DefaultLength)
  }

  /**
   * One run of the program. args are os.Args (program name first); the
   * store is the notes file's content; now is the timestamp key of the
   * current second. The listing of the domain's notes is shown before the
   * length argument is parsed; a non-empty note is stored before the master
   * password is asked for, so it is kept even when the run then aborts.
   */
  method Run(args: seq<string>, saltLine: string, noteLine: string, master: string, now: string,
             mac: Hmac, store: NoteCollection)
    returns (shown: seq<Line>, exit: Exit)
    modifies store
    ensures |args| == 1 ==> exit == Usage && shown == [] && store.pool == old(store.pool)
    ensures |args| <= 1 ==> shown == []
    ensures |args| > 1 ==> IsListing(shown, old(store.pool), TrimSpace(args[1]))
    ensures |args| != 1 && LengthArgument(args).None? ==> exit == BadLength && store.pool == old(store.pool)
    ensures |args| != 1 && LengthArgument(args).Some? ==>
      var domain := if |args| > 1 then TrimSpace(args[1]) else "";
      var note := TrimRightNewlines(noteLine);
      var n := LengthArgument(args).value;
      && store.pool == (if |note| > 0 then old(store.pool)[now := Note(domain, note)] else old(store.pool))
      && exit == (if |master| == 0 then Aborted
                  else if 0 <= n <= EncodedLength then Copied(Password(mac, domain, TrimRightNewlines(saltLine), master, n))
                  else Panicked)
  {
    var domain, salt, note := "", "", "";
    var passLength := DefaultLength;
    shown := [];

    if |args| == 1 {
      exit := Usage;
      return;
    }
    if |args| > 1 {
      domain := TrimSpace(args[1]);
      shown := store.Display(domain);
    }
    if |args| > 2 {
      var parsed := Atoi(args[2]);
      if parsed.None? {
        exit := BadLength;
        return;
      }
      passLength := parsed.value;
    }

    salt := TrimRightNewlines(saltLine);
    note := TrimRightNewlines(noteLine);
    if |note| > 0 {
      store.AddNote(now, domain, note);
    }

    if |master| == 0 {
      exit := Aborted;
      return;
    }
    if 0 <= passLength <= EncodedLength {
      exit := Copied(Password(mac, domain, salt, master, passLength));
    } else {
      exit := Panicked;
    }
  }
}
