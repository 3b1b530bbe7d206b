/**
 * The note store: a map from a timestamp key ("20060102150405" layout, so
 * that the string order is the chronological order) to a note, the listing
 * of one domain's notes in key order, and the insertion of a new note.
 */
module Notes {
  import opened GoStrings

  datatype Note = Note(domain: string, text: string)

  /** One listed note: its key (printed as a date) and its text. */
  datatype Line = Line(key: string, text: string)

  /** The keys whose note belongs to domain. */
  function Selected(pool: map<string, Note>, domain: string): set<string> {
    set k | k in pool && pool[k].domain == domain
  }

  predicate Distinct(s: seq<string>) {
    forall i, j | 0 <= i < j < |s| :: s[i] != s[j]
  }

  predicate Ascending(s: seq<string>) {
    forall i, j | 0 <= i < j < |s| :: Below(s[i], s[j])
  }

  function LineKeys(lines: seq<Line>): (ks: seq<string>)
    ensures |ks| == |lines| && forall i | 0 <= i < |lines| :: ks[i] == lines[i].key
  {
    seq(|lines|, i requires 0 <= i < |lines| => lines[i].key)
  }

  /**
   * lines is the listing of domain's notes: every note of the domain exactly
   * once, with its text, in strictly ascending key order, and nothing else.
   */
  predicate IsListing(lines: seq<Line>, pool: map<string, Note>, domain: string) {
    Ascending(LineKeys(lines))
    && (forall i | 0 <= i < |lines| :: lines[i].key in pool && pool[lines[i].key] == Note(domain, lines[i].text))
    && (forall k | k in Selected(pool, domain) :: k in LineKeys(lines))
  }

  // ----- sort.Strings -----

  /** Inserts x in front of the first element that is not below it. */
  function Insert(x: string, s: seq<string>): (r: seq<string>)
    ensures multiset(r) == multiset(s) + multiset{x}
    decreases |s|
  {
    if s == [] || !Below(s[0], x) then [x] + s
    else
      assert s == [s[0]] + s[1..];
      [s[0]] + Insert(x, s[1..])
  }

  /** sort.Strings, as insertion sort: a permutation of s in ascending order. */
  function SortStrings(s: seq<string>): (r: seq<string>)
    ensures multiset(r) == multiset(s)
    decreases |s|
  {
    if s == [] then []
    else
      assert s == [s[0]] + s[1..];
      Insert(s[0], SortStrings(s[1..]))
  }

  lemma {:induction false} InsertAscending(x: string, s: seq<string>)
    requires Ascending(s) && x !in s
    ensures Ascending(Insert(x, s))
    decreases |s|
  {
    var r := Insert(x, s);
    if s == [] {
    } else if !Below(s[0], x) {
      BelowTotal(x, s[0]);
      forall j | 0 < j < |r| ensures Below(r[0], r[j]) {
        if j > 1 { BelowTransitive(x, s[0], s[j - 1]); }
      }
    } else {
      InsertAscending(x, s[1..]);
      var t := Insert(x, s[1..]);
      forall j | 0 < j < |r| ensures Below(r[0], r[j]) {
        assert r[j] in multiset(t);
        assert r[j] == x || r[j] in s[1..];
      }
    }
  }

  /**
   * Sorting distinct strings gives a strictly ascending sequence. Duplicates
   * are not considered: display_notes sorts the keys of a map, which are
   * distinct (SelectKeys ensures Distinct).
   */
  lemma {:induction false} SortAscending(s: seq<string>)
    requires Distinct(s)
    ensures Ascending(SortStrings(s))
    decreases |s|
  {
    if s != [] {
      SortAscending(s[1..]);
      var t := SortStrings(s[1..]);
      assert s[0] !in s[1..];
      assert s[0] !in multiset(t);
      InsertAscending(s[0], t);
    }
  }

  lemma SameElementsEmpty(a: seq<string>, b: seq<string>)
    requires forall x :: x in a <==> x in b
    ensures a == [] <==> b == []
  {
    if a != [] { assert a[0] in b; }
    if b != [] { assert b[0] in a; }
  }

  /** A strictly ascending sequence is the only one with its elements: the listing does not depend on map order. */
  lemma {:induction false} AscendingUnique(a: seq<string>, b: seq<string>)
    requires Ascending(a) && Ascending(b)
    requires forall x :: x in a <==> x in b
    ensures a == b
    decreases |a|
  {
    if a != [] {
      assert a[0] in b;
      assert b != [];
      assert b[0] in a;
      if a[0] != b[0] {
        var i :| 0 < i < |a| && a[i] == b[0];
        var j :| 0 < j < |b| && b[j] == a[0];
        BelowTransitive(a[0], b[0], a[0]);
        BelowIrreflexive(a[0]);
      }
      forall x ensures x in a[1..] <==> x in b[1..] {
        if x in a[1..] {
          var i :| 0 < i < |a| && a[i] == x;
          BelowIrreflexive(x);
          assert x != a[0] && x in b;
          var j :| 0 <= j < |b| && b[j] == x;
          assert j != 0;
        }
        if x in b[1..] {
          var j :| 0 < j < |b| && b[j] == x;
          BelowIrreflexive(x);
          assert x != b[0] && x in a;
          var i :| 0 <= i < |a| && a[i] == x;
          assert i != 0;
        }
      }
      AscendingUnique(a[1..], b[1..]);
      assert a == [a[0]] + a[1..] && b == [b[0]] + b[1..];
    } else {
      SameElementsEmpty(a, b);
    }
  }

  /** Two listings of one domain of one store are equal. */
  lemma ListingUnique(l1: seq<Line>, l2: seq<Line>, pool: map<string, Note>, domain: string)
    requires IsListing(l1, pool, domain) && IsListing(l2, pool, domain)
    ensures l1 == l2
  {
    var k1, k2 := LineKeys(l1), LineKeys(l2);
    forall x ensures x in k1 <==> x in k2 {
      if x in k1 { var i :| 0 <= i < |l1| && k1[i] == x; assert x in Selected(pool, domain); }
      if x in k2 { var i :| 0 <= i < |l2| && k2[i] == x; assert x in Selected(pool, domain); }
    }
    AscendingUnique(k1, k2);
  }

  /** Inserting a note selects its key for its domain and deselects it for every other domain. */
  lemma SelectedAfterInsert(pool: map<string, Note>, key: string, domain: string, text: string, other: string)
    ensures Selected(pool[key := Note(domain, text)], domain) == Selected(pool, domain) + {key}
    ensures other != domain ==> Selected(pool[key := Note(domain, text)], other) == Selected(pool, other) - {key}
  {
  }

  /** A note just added is in its domain's next listing exactly once, with its text. */
  lemma AddedNoteListedOnce(pool: map<string, Note>, key: string, domain: string, text: string, lines: seq<Line>)
    requires IsListing(lines, pool[key := Note(domain, text)], domain)
    ensures exists i :: 0 <= i < |lines| && lines[i] == Line(key, text)
    ensures forall i, j | 0 <= i < |lines| && 0 <= j < |lines| && lines[i].key == key && lines[j].key == key :: i == j
  {
    var p := pool[key := Note(domain, text)];
    assert key in Selected(p, domain);
    var i :| 0 <= i < |lines| && LineKeys(lines)[i] == key;
    assert lines[i] == Line(key, text);
    BelowIrreflexive(key);
  }

  /** Inserting a note adds at most one key; exactly one when the key is new. */
  lemma InsertSize(pool: map<string, Note>, key: string, note: Note)
    ensures key !in pool ==> |pool[key := note]| == |pool| + 1
    ensures key in pool ==> |pool[key := note]| == |pool|
    ensures pool == map[] ==> pool[key := note] == map[key := note] && |pool[key := note]| == 1
  {
    if key in pool {
      assert pool[key := note].Keys == pool.Keys;
    } else {
      assert pool[key := note].Keys == pool.Keys + {key};
    }
  }

  lemma SortSameElements(s: seq<string>)
    ensures forall k :: k in SortStrings(s) <==> k in s
  {
    var r := SortStrings(s);
    assert forall k :: k in r <==> k in multiset(r);
    assert forall k :: k in s <==> k in multiset(s);
  }

  /** Pairing the ascending selected keys with their texts gives the listing. */
  lemma ListingOfKeys(keys: seq<string>, lines: seq<Line>, pool: map<string, Note>, domain: string)
    requires Ascending(keys)
    requires forall k :: k in keys <==> k in Selected(pool, domain)
    requires |lines| == |keys|
    requires forall j | 0 <= j < |keys| :: keys[j] in pool && lines[j] == Line(keys[j], pool[keys[j]].text)
    ensures IsListing(lines, pool, domain)
  {
    assert LineKeys(lines) == keys;
    forall i | 0 <= i < |lines| ensures pool[lines[i].key] == Note(domain, lines[i].text) {
      assert keys[i] in Selected(pool, domain);
    }
  }

  /** The loop of display_notes that collects, in map order, the keys of domain's notes. */
  method SelectKeys(pool: map<string, Note>, domain: string) returns (keys: seq<string>)
    ensures Distinct(keys)
    ensures forall k :: k in keys <==> k in Selected(pool, domain)
  {
    keys := [];
    var rest := pool.Keys;
    while rest != {}
      invariant rest <= pool.Keys
      invariant Distinct(keys)
      invariant forall k :: k in keys <==> k in Selected(pool, domain) && k !in rest
      decreases rest
    {
      var key :| key in rest;
      if pool[key].domain == domain {
        keys := keys + [key];
      }
      rest := rest - {key};
    }
  }

  /** The NoteCollection of the program: the store as read from the notes file. */
  class NoteCollection {
    var pool: map<string, Note>

    /** read_notes: the collection holding what the notes file contained (empty when it was missing or unreadable). */
    constructor (loaded: map<string, Note>)
      ensures pool == loaded
    {
      pool := loaded;
    }

    /**
     * display_notes: collects the keys of domain's notes, sorts them, and
     * yields each with its text. The store is only read.
     */
    method Display(domain: string) returns (lines: seq<Line>)
      ensures IsListing(lines, pool, domain)
    {
      var keys := SelectKeys(pool, domain);
      SortAscending(keys);
      SortSameElements(keys);
      keys := SortStrings(keys);
      lines := [];
      var i := 0;
      while i < |keys|
        invariant 0 <= i <= |keys| && |lines| == i
        invariant forall j | 0 <= j < i :: keys[j] in pool && lines[j] == Line(keys[j], pool[keys[j]].text)
      {
        assert keys[i] in Selected(pool, domain);
        lines := lines + [Line(keys[i], pool[keys[i]].text)];
        i := i + 1;
      }
      ListingOfKeys(keys, lines, pool, domain);
    }

    /**
     * add_note: stores the note (domain, text) under key, replacing a note
     * already stored under the same key and leaving every other key alone.
     */
    method AddNote(key: string, domain: string, text: string)
      modifies this
      ensures pool == old(pool)[key := Note(domain, text)]
      ensures key in pool && pool[key] == Note(domain, text)
      ensures forall k | k in old(pool) && k != key :: k in pool && pool[k] == old(pool)[k]
      ensures pool.Keys == old(pool).Keys + {key}
    {
      pool := pool[key := Note(domain, text)];
    }
  }
}
