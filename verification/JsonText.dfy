/** Writing a JSON value: every text and key in it is sanitized, and an object says whether anything was lost. */
module JsonText {
  import opened Wrappers
  import opened Utf8
  import opened Utf8Properties

  datatype Json =
    | Null
    | Bool(value: bool)
    | Number(digits: string)
    | Text(text: Bytes)
    | List(items: seq<Json>)
    | Object(entries: seq<Entry>)

  datatype Entry = Entry(key: Bytes, item: Json)

  predicate Distinct(entries: seq<Entry>) {
    forall i, j :: 0 <= i < j < |entries| ==> entries[i].key != entries[j].key
  }

  /** No object has two entries of one key. */
  predicate DistinctTree(v: Json) {
    match v
    case List(items) => forall i :: 0 <= i < |items| ==> DistinctTree(items[i])
    case Object(entries) => Distinct(entries) && forall i :: 0 <= i < |entries| ==> DistinctTree(entries[i].item)
    case _ => true
  }

  /** What a program can hold: its objects are maps, listed here in the order in which they are gone through. */
  type Value = v: Json | DistinctTree(v) witness Null

  // ---- Maps --------------------------------------------------------------------------------------------------

  function Lookup(entries: seq<Entry>, key: Bytes): (r: Option<Json>)
    ensures r.Some? ==> exists i :: 0 <= i < |entries| && entries[i] == Entry(key, r.value)
    ensures r.None? ==> forall i :: 0 <= i < |entries| ==> entries[i].key != key
  {
    if entries == [] then None
    else if entries[0].key == key then Some(entries[0].item)
    else Lookup(entries[1..], key)
  }

  /** Assignment to a key: its entry is replaced, or there is a new one. */
  function Put(entries: seq<Entry>, key: Bytes, item: Json): seq<Entry> {
    if entries == [] then [Entry(key, item)]
    else if entries[0].key == key then [Entry(key, item)] + entries[1..]
    else [entries[0]] + Put(entries[1..], key, item)
  }

  lemma {:induction false} PutExact(entries: seq<Entry>, key: Bytes, item: Json, other: Bytes)
    ensures Lookup(Put(entries, key, item), other) == if other == key then Some(item) else Lookup(entries, other)
  {
    if entries != [] && entries[0].key != key {
      PutExact(entries[1..], key, item, other);
      assert Put(entries, key, item)[1..] == Put(entries[1..], key, item);
    }
  }

  /** Some entry has the key. */
  predicate HasKey(entries: seq<Entry>, key: Bytes) {
    exists i :: 0 <= i < |entries| && entries[i].key == key
  }

  /** Assignment replaces the entry of the key. */
  lemma {:induction false} PutMembers(entries: seq<Entry>, key: Bytes, item: Json, e: Entry)
    requires Distinct(entries)
    ensures e in Put(entries, key, item) <==> e == Entry(key, item) || (e in entries && e.key != key)
  {
    if entries != [] {
      var head, rest := entries[0], entries[1..];
      assert entries == [head] + rest;
      assert forall x :: x in rest ==> x.key != head.key;
      if head.key != key {
        PutMembers(rest, key, item, e);
      }
    }
  }

  lemma {:induction false} PutPlace(entries: seq<Entry>, key: Bytes, item: Json)
    ensures !HasKey(entries, key) ==> Put(entries, key, item) == entries + [Entry(key, item)]
    ensures HasKey(entries, key) ==> |Put(entries, key, item)| == |entries|
  {
    hide HasKey;
    if entries == [] {
      HasNoKey(key);
    } else {
      HasKeySplit(entries, key);
      PutPlace(entries[1..], key, item);
    }
  }

  lemma HasNoKey(key: Bytes)
    ensures !HasKey([], key)
  {
  }

  lemma DistinctCons(head: Entry, rest: seq<Entry>)
    ensures Distinct([head] + rest) <==> Distinct(rest) && forall e :: e in rest ==> e.key != head.key
  {
    var s := [head] + rest;
    assert forall i :: 0 <= i < |rest| ==> s[i + 1] == rest[i];
    if Distinct(s) {
      forall i, j | 0 <= i < j < |rest| ensures rest[i].key != rest[j].key {
        assert s[i + 1].key != s[j + 1].key;
      }
      forall e | e in rest ensures e.key != head.key {
        var i :| 0 <= i < |rest| && rest[i] == e;
        assert s[0].key != s[i + 1].key;
      }
    }
  }

  lemma {:induction false} PutDistinct(entries: seq<Entry>, key: Bytes, item: Json)
    requires Distinct(entries)
    ensures Distinct(Put(entries, key, item))
  {
    hide Distinct;
    if entries == [] {
      OneDistinct(Entry(key, item));
    } else {
      var head, rest := entries[0], entries[1..];
      assert entries == [head] + rest;
      DistinctCons(head, rest);
      if head.key == key {
        DistinctCons(Entry(key, item), rest);
      } else {
        PutDistinct(rest, key, item);
        forall e | e in Put(rest, key, item) ensures e.key != head.key {
          PutMembers(rest, key, item, e);
        }
        DistinctCons(head, Put(rest, key, item));
      }
    }
  }

  lemma OneDistinct(e: Entry)
    ensures Distinct([e])
  {
  }

  lemma HasKeySplit(entries: seq<Entry>, key: Bytes)
    requires entries != []
    ensures HasKey(entries, key) <==> entries[0].key == key || HasKey(entries[1..], key)
  {
    if HasKey(entries, key) && entries[0].key != key {
      var i :| 0 <= i < |entries| && entries[i].key == key;
      assert entries[1..][i - 1] == entries[i];
    }
  }

  // ---- The recursion over the tree ---------------------------------------------------------------------------

  function Clean(v: Json): Json {
    match v
    case Text(text) => Text(Sanitized(text))
    case List(items) => List(CleanItems(items))
    case Object(entries) => Object(CleanEntries(entries))
    case _ => v
  }

  function CleanItems(items: seq<Json>): (r: seq<Json>)
    ensures |r| == |items| && forall i :: 0 <= i < |items| ==> r[i] == Clean(items[i])
  {
    if items == [] then [] else [Clean(items[0])] + CleanItems(items[1..])
  }

  /** Each entry is assigned to its sanitized key, over one that is there. */
  function CleanEntries(entries: seq<Entry>): seq<Entry> {
    if entries == [] then []
    else
      var init, last := entries[..|entries| - 1], entries[|entries| - 1];
      Put(CleanEntries(init), Sanitized(last.key), Clean(last.item))
  }

  /** The flag that the recursion leaves raised. */
  predicate LossyTree(v: Json) {
    match v
    case Text(text) => Lossy(text)
    case List(items) => exists i :: 0 <= i < |items| && LossyTree(items[i])
    case Object(entries) => exists i :: 0 <= i < |entries| && (Lossy(entries[i].key) || LossyTree(entries[i].item))
    case _ => false
  }

  // ---- What the recursion means ------------------------------------------------------------------------------

  /** All texts and keys are well-formed. */
  ghost predicate WellFormedTree(v: Json) {
    match v
    case Text(text) => WellFormed(text)
    case List(items) => forall i :: 0 <= i < |items| ==> WellFormedTree(items[i])
    case Object(entries) =>
      forall i :: 0 <= i < |entries| ==> WellFormed(entries[i].key) && WellFormedTree(entries[i].item)
    case _ => true
  }

  /** All keys are well-formed. */
  ghost predicate WellFormedKeys(v: Json) {
    match v
    case List(items) => forall i :: 0 <= i < |items| ==> WellFormedKeys(items[i])
    case Object(entries) =>
      forall i :: 0 <= i < |entries| ==> WellFormed(entries[i].key) && WellFormedKeys(entries[i].item)
    case _ => true
  }

  /** Some text or key contains U+FFFD. */
  predicate ContainsTree(v: Json) {
    match v
    case Text(text) => Contains(text)
    case List(items) => exists i :: 0 <= i < |items| && ContainsTree(items[i])
    case Object(entries) =>
      exists i :: 0 <= i < |entries| && (Contains(entries[i].key) || ContainsTree(entries[i].item))
    case _ => false
  }

  /** No two keys are alike. */
  predicate KeysApart(entries: seq<Entry>) {
    forall i, j :: 0 <= i < j < |entries| ==> !Alike(entries[i].key, entries[j].key)
  }

  /** No two keys of an object are alike, here and below. */
  predicate NoneAlike(v: Json) {
    match v
    case List(items) => forall i :: 0 <= i < |items| ==> NoneAlike(items[i])
    case Object(entries) =>
      KeysApart(entries) && forall i :: 0 <= i < |entries| ==> NoneAlike(entries[i].item)
    case _ => true
  }

  /** Every text and every entry of `v` is in its place in `c`, sanitized. */
  predicate EntryByEntry(v: Json, c: Json) {
    match v
    case Text(text) => c == Text(Sanitized(text))
    case List(items) =>
      && c.List? && |c.items| == |items|
      && forall i :: 0 <= i < |items| ==> EntryByEntry(items[i], c.items[i])
    case Object(entries) =>
      && c.Object? && |c.entries| == |entries|
      && forall i :: 0 <= i < |entries| ==>
           c.entries[i].key == Sanitized(entries[i].key) && EntryByEntry(entries[i].item, c.entries[i].item)
    case _ => c == v
  }

  // ---- One object --------------------------------------------------------------------------------------------

  /** No later entry has a key alike. */
  predicate Stays(entries: seq<Entry>, i: int) {
    0 <= i < |entries| && forall j :: i < j < |entries| ==> !Alike(entries[i].key, entries[j].key)
  }

  /** The entry after it was cleaned. */
  function CleanEntry(e: Entry): Entry {
    Entry(Sanitized(e.key), Clean(e.item))
  }

  /** The clean entry of an entry that stays. */
  ghost predicate FromStaying(entries: seq<Entry>, e: Entry) {
    exists i :: Stays(entries, i) && e == CleanEntry(entries[i])
  }

  lemma StaysMore(init: seq<Entry>, last: Entry, e: Entry)
    ensures FromStaying(init + [last], e) <==>
            e == CleanEntry(last) || (FromStaying(init, e) && e.key != Sanitized(last.key))
  {
    hide Sanitized, Alike, Clean;
    var entries := init + [last];
    if e == CleanEntry(last) {
      assert Stays(entries, |init|);
    }
    if i :| Stays(entries, i) && e == CleanEntry(entries[i]) {
      if i < |init| {
        assert entries[i] == init[i] && entries[|init|] == last;
        SanitizedSame(init[i].key, last.key);
        assert Stays(init, i) by {
          assert forall j :: i < j < |init| ==> init[j] == entries[j];
        }
      }
    }
    if FromStaying(init, e) && e.key != Sanitized(last.key) {
      var i :| Stays(init, i) && e == CleanEntry(init[i]);
      SanitizedSame(init[i].key, last.key);
      assert Stays(entries, i) by {
        assert forall j :: i < j < |entries| ==> entries[j] == if j < |init| then init[j] else last;
      }
      assert entries[i] == init[i];
    }
  }

  /** Of entries whose keys are alike the last one wins; all others are there, and no key is there twice. */
  lemma {:induction false} LastWins(entries: seq<Entry>)
    ensures Distinct(CleanEntries(entries))
    ensures forall e :: e in CleanEntries(entries) <==> FromStaying(entries, e)
  {
    hide Sanitized, Alike, Clean, Put, FromStaying, Distinct;
    if entries == [] {
      NoEntries();
    } else {
      var init, last := entries[..|entries| - 1], entries[|entries| - 1];
      assert entries == init + [last];
      LastWins(init);
      PutDistinct(CleanEntries(init), Sanitized(last.key), Clean(last.item));
      forall e ensures e in CleanEntries(entries) <==> FromStaying(entries, e) {
        PutMembers(CleanEntries(init), Sanitized(last.key), Clean(last.item), e);
        StaysMore(init, last, e);
      }
    }
  }

  lemma NoEntries()
    ensures CleanEntries([]) == [] && Distinct([]) && forall e :: !FromStaying([], e)
  {
  }

  /** An object keeps as many entries as it has if and only if no two keys are alike, and then each in its place. */
  lemma {:induction false} EntriesKept(entries: seq<Entry>)
    ensures var r := CleanEntries(entries);
            && |r| <= |entries|
            && (|r| == |entries| <==> KeysApart(entries))
            && (KeysApart(entries) ==> forall i :: 0 <= i < |entries| ==> r[i] == CleanEntry(entries[i]))
  {
    hide Sanitized, Alike, Clean, Put, FromStaying, Distinct, HasKey;
    if entries != [] {
      var init, last := entries[..|entries| - 1], entries[|entries| - 1];
      assert entries == init + [last];
      EntriesKept(init);
      PutPlace(CleanEntries(init), Sanitized(last.key), Clean(last.item));
      ApartMore(init, last);
      TakenKey(init, last.key);
    }
  }

  lemma ApartMore(init: seq<Entry>, last: Entry)
    ensures KeysApart(init + [last]) <==>
            KeysApart(init) && forall i :: 0 <= i < |init| ==> !Alike(init[i].key, last.key)
  {
    hide Alike;
    var entries := init + [last];
    assert forall i :: 0 <= i < |init| ==> entries[i] == init[i];
    assert entries[|init|] == last;
  }

  /** If no two keys are alike, a key is taken exactly by one alike. */
  lemma TakenKey(entries: seq<Entry>, key: Bytes)
    requires KeysApart(entries) ==>
               |CleanEntries(entries)| == |entries| &&
               forall i :: 0 <= i < |entries| ==> CleanEntries(entries)[i] == CleanEntry(entries[i])
    ensures KeysApart(entries) ==>
              (HasKey(CleanEntries(entries), Sanitized(key)) <==>
               exists i :: 0 <= i < |entries| && Alike(entries[i].key, key))
  {
    hide Sanitized, Alike, Clean, CleanEntries;
    if KeysApart(entries) {
      var r := CleanEntries(entries);
      forall i | 0 <= i < |entries| ensures r[i].key == Sanitized(key) <==> Alike(entries[i].key, key) {
        SanitizedSame(entries[i].key, key);
      }
    }
  }

  /** An entry that stays and whose key is alike. */
  lemma {:induction false} Winner(entries: seq<Entry>, i: nat) returns (l: nat)
    requires i < |entries|
    ensures Stays(entries, l) && Sanitized(entries[l].key) == Sanitized(entries[i].key)
    ensures l == i || entries[l].key != entries[i].key || !Distinct(entries)
    decreases |entries| - i
  {
    hide Sanitized, Alike;
    if j :| i < j < |entries| && Alike(entries[i].key, entries[j].key) {
      SanitizedSame(entries[i].key, entries[j].key);
      l := Winner(entries, j);
    } else {
      l := i;
    }
  }

  /** A sanitized entry is always there under its key. */
  lemma KeyThere(entries: seq<Entry>, i: nat) returns (e: Entry)
    requires i < |entries|
    ensures e in CleanEntries(entries) && e.key == Sanitized(entries[i].key)
    ensures e == CleanEntry(entries[i]) || exists j :: i < j < |entries| && Alike(entries[i].key, entries[j].key)
  {
    hide Sanitized, Alike, Clean, CleanEntries;
    var l := Winner(entries, i);
    LastWins(entries);
    e := CleanEntry(entries[l]);
    assert FromStaying(entries, e);
    if Stays(entries, i) {
      assert FromStaying(entries, CleanEntry(entries[i]));
      e := CleanEntry(entries[i]);
    }
  }

  // ---- Whole trees -------------------------------------------------------------------------------------------

  lemma {:induction false} CleanWellFormed(v: Json)
    ensures WellFormedTree(Clean(v))
  {
    hide Sanitized, WellFormed, CleanItems, CleanEntries;
    match v {
      case Text(text) => SanitizedWellFormed(text);
      case List(items) =>
        forall i | 0 <= i < |items| ensures WellFormedTree(Clean(v).items[i]) {
          CleanWellFormed(items[i]);
        }
      case Object(entries) =>
        LastWins(entries);
        forall i | 0 <= i < |Clean(v).entries|
          ensures WellFormed(Clean(v).entries[i].key) && WellFormedTree(Clean(v).entries[i].item)
        {
          var e := Clean(v).entries[i];
          assert e in CleanEntries(entries);
          var l :| Stays(entries, l) && e == CleanEntry(entries[l]);
          SanitizedWellFormed(entries[l].key);
          CleanWellFormed(entries[l].item);
        }
      case _ =>
    }
  }

  /** Whatever is cleaned, no object of the result has two entries of one key. */
  lemma {:induction false} CleanDistinct(v: Json)
    ensures DistinctTree(Clean(v))
  {
    hide Sanitized, CleanItems, CleanEntries, Distinct;
    match v {
      case List(items) =>
        forall i | 0 <= i < |items| ensures DistinctTree(Clean(v).items[i]) {
          CleanDistinct(items[i]);
        }
      case Object(entries) =>
        LastWins(entries);
        forall i | 0 <= i < |Clean(v).entries| ensures DistinctTree(Clean(v).entries[i].item) {
          var e := Clean(v).entries[i];
          assert e in CleanEntries(entries);
          var l :| Stays(entries, l) && e == CleanEntry(entries[l]);
          CleanDistinct(entries[l].item);
        }
      case _ =>
    }
  }

  /** No entry is lost and every one is in its place if and only if no two keys of an object are alike. */
  lemma {:induction false} NothingLostExactly(v: Json)
    ensures EntryByEntry(v, Clean(v)) <==> NoneAlike(v)
  {
    hide Sanitized, Alike, CleanItems, CleanEntries;
    match v {
      case List(items) =>
        forall i | 0 <= i < |items| ensures EntryByEntry(items[i], Clean(v).items[i]) <==> NoneAlike(items[i]) {
          NothingLostExactly(items[i]);
        }
      case Object(entries) =>
        EntriesKept(entries);
        forall i | 0 <= i < |entries| ensures EntryByEntry(entries[i].item, Clean(entries[i].item)) <==>
                                              NoneAlike(entries[i].item)
        {
          NothingLostExactly(entries[i].item);
        }
      case _ =>
    }
  }

  /** Well-formed keys are alike only if they are the same. */
  lemma WellFormedApart(entries: seq<Entry>)
    requires Distinct(entries) && forall i :: 0 <= i < |entries| ==> WellFormed(entries[i].key)
    ensures KeysApart(entries)
  {
    hide Sanitized, Alike, WellFormed;
    forall i, j | 0 <= i < j < |entries| ensures !Alike(entries[i].key, entries[j].key) {
      KeptExactly(entries[i].key);
      KeptExactly(entries[j].key);
      SanitizedSame(entries[i].key, entries[j].key);
    }
  }

  /** So a value with well-formed keys loses nothing, whatever its texts. */
  lemma {:induction false} WellFormedKeysStay(v: Value)
    requires WellFormedKeys(v)
    ensures NoneAlike(v) && EntryByEntry(v, Clean(v))
  {
    hide Sanitized, Alike, WellFormed, Clean, EntryByEntry, Distinct;
    match v {
      case List(items) =>
        forall i | 0 <= i < |items| ensures NoneAlike(items[i]) {
          WellFormedKeysStay(items[i]);
        }
      case Object(entries) =>
        WellFormedApart(entries);
        forall i | 0 <= i < |entries| ensures NoneAlike(entries[i].item) {
          WellFormedKeysStay(entries[i].item);
        }
      case _ =>
    }
    NothingLostExactly(v);
  }

  /** Exactly the well-formed values are returned unchanged. */
  lemma {:induction false} CleanKeepsExactly(v: Value)
    ensures Clean(v) == v <==> WellFormedTree(v)
  {
    hide Sanitized, Alike, WellFormed, CleanItems, CleanEntries, Distinct;
    CleanWellFormed(v);
    if WellFormedTree(v) {
      match v {
        case Text(text) => KeptExactly(text);
        case List(items) =>
          forall i | 0 <= i < |items| ensures CleanItems(items)[i] == items[i] {
            CleanKeepsExactly(items[i]);
          }
          assert CleanItems(items) == items;
        case Object(entries) =>
          WellFormedApart(entries);
          EntriesKept(entries);
          forall i | 0 <= i < |entries| ensures CleanEntries(entries)[i] == entries[i] {
            KeptExactly(entries[i].key);
            CleanKeepsExactly(entries[i].item);
          }
          assert CleanEntries(entries) == entries;
        case _ =>
      }
    }
  }

  /** What is clean stays as it is. */
  lemma CleanIdempotent(v: Json)
    ensures Clean(Clean(v)) == Clean(v)
  {
    hide *;
    CleanWellFormed(v);
    CleanDistinct(v);
    CleanKeepsExactly(Clean(v));
  }

  /** The flag is raised exactly when U+FFFD is somewhere in the output, though an entry may have been replaced. */
  lemma {:induction false} LossyTreeExact(v: Value)
    ensures LossyTree(v) <==> ContainsTree(Clean(v))
  {
    hide Sanitized, Lossy, Contains, CleanItems, CleanEntries, Distinct;
    match v {
      case Text(text) => LossyExact(text);
      case List(items) =>
        forall i | 0 <= i < |items| ensures LossyTree(items[i]) <==> ContainsTree(Clean(v).items[i]) {
          LossyTreeExact(items[i]);
        }
      case Object(entries) =>
        forall i | 0 <= i < |entries| ensures LossyTree(entries[i].item) <==> ContainsTree(Clean(entries[i].item)) {
          LossyTreeExact(entries[i].item);
        }
        LossyEntries(entries);
      case _ =>
    }
  }

  predicate LossyEntry(e: Entry) {
    Lossy(e.key) || LossyTree(e.item)
  }

  predicate ContainsEntry(e: Entry) {
    Contains(e.key) || ContainsTree(e.item)
  }

  lemma LossyObject(entries: seq<Entry>)
    ensures LossyTree(Object(entries)) <==> exists e :: e in entries && LossyEntry(e)
  {
    hide Lossy;
    if LossyTree(Object(entries)) {
      var i :| 0 <= i < |entries| && LossyEntry(entries[i]);
      assert entries[i] in entries;
    }
    if e :| e in entries && LossyEntry(e) {
      var i :| 0 <= i < |entries| && entries[i] == e;
    }
  }

  lemma ContainsObject(entries: seq<Entry>)
    ensures ContainsTree(Object(entries)) <==> exists e :: e in entries && ContainsEntry(e)
  {
    hide Contains;
    if ContainsTree(Object(entries)) {
      var i :| 0 <= i < |entries| && ContainsEntry(entries[i]);
      assert entries[i] in entries;
    }
    if e :| e in entries && ContainsEntry(e) {
      var i :| 0 <= i < |entries| && entries[i] == e;
    }
  }

  lemma LossyEntries(entries: seq<Entry>)
    requires Distinct(entries)
    requires forall i :: 0 <= i < |entries| ==> (LossyTree(entries[i].item) <==> ContainsTree(Clean(entries[i].item)))
    ensures LossyTree(Object(entries)) <==> ContainsTree(Object(CleanEntries(entries)))
  {
    hide LossyTree, ContainsTree, Sanitized, Lossy, Contains, CleanEntries, Clean, Alike;
    LossyObject(entries);
    ContainsObject(CleanEntries(entries));
    LastWins(entries);
    if e :| e in entries && LossyEntry(e) {
      var i :| 0 <= i < |entries| && entries[i] == e;
      var c := LossShows(entries, i);
    }
    if c :| c in CleanEntries(entries) && ContainsEntry(c) {
      var l :| Stays(entries, l) && c == CleanEntry(entries[l]);
      LossyExact(entries[l].key);
      assert LossyEntry(entries[l]);
    }
  }

  lemma LossShows(entries: seq<Entry>, i: nat) returns (c: Entry)
    requires Distinct(entries) && i < |entries| && LossyEntry(entries[i])
    requires LossyTree(entries[i].item) ==> ContainsTree(Clean(entries[i].item))
    ensures c in CleanEntries(entries) && ContainsEntry(c)
  {
    hide LossyTree, ContainsTree, Sanitized, Lossy, Contains, CleanEntries, Clean, Alike;
    c := KeyThere(entries, i);
    LossyExact(entries[i].key);
    if c != CleanEntry(entries[i]) {
      var j :| i < j < |entries| && Alike(entries[i].key, entries[j].key);
      AlikeIsLossy(entries[i].key, entries[j].key);
    }
  }

  /** Different texts that are alike are not both free of loss, and what they become shows it. */
  lemma AlikeIsLossy(a: Bytes, b: Bytes)
    requires Alike(a, b) && a != b
    ensures Contains(Sanitized(a)) && Sanitized(a) == Sanitized(b)
  {
    hide *;
    SanitizedSame(a, b);
    LossyExact(a);
    LossyExact(b);
    if !Lossy(a) && !Lossy(b) {
      UnflaggedKept(a);
      UnflaggedKept(b);
    }
  }

  // ---- The written object ------------------------------------------------------------------------------------

  /** "encoding_lossy" */
  const LOSSY_KEY: Bytes := [0x65, 0x6e, 0x63, 0x6f, 0x64, 0x69, 0x6e, 0x67, 0x5f, 0x6c, 0x6f, 0x73, 0x73, 0x79]

  /** "diagnostics" */
  const DIAGNOSTICS: Bytes := [0x64, 0x69, 0x61, 0x67, 0x6e, 0x6f, 0x73, 0x74, 0x69, 0x63, 0x73]

  /** kind: text_encoding, status: lossy, replacement: U+FFFD */
  const NOTICE := Object([Entry(KIND, Text(TEXT_ENCODING)), Entry(STATUS, Text(LOSSY)), Entry(REPLACED, Text(BY))])
  const KIND: Bytes := [0x6b, 0x69, 0x6e, 0x64]
  const TEXT_ENCODING: Bytes := [0x74, 0x65, 0x78, 0x74, 0x5f, 0x65, 0x6e, 0x63, 0x6f, 0x64, 0x69, 0x6e, 0x67]
  const STATUS: Bytes := [0x73, 0x74, 0x61, 0x74, 0x75, 0x73]
  const LOSSY: Bytes := [0x6c, 0x6f, 0x73, 0x73, 0x79]
  const REPLACED: Bytes := [0x72, 0x65, 0x70, 0x6c, 0x61, 0x63, 0x65, 0x6d, 0x65, 0x6e, 0x74]
  const BY: Bytes := [0x55, 0x2b, 0x46, 0x46, 0x46, 0x44]

  /** The bytes of an ASCII text. */
  function Ascii(text: string): Bytes
    requires forall i :: 0 <= i < |text| ==> text[i] < 128 as char
  {
    seq(|text|, i requires 0 <= i < |text| => text[i] as int as Byte)
  }

  lemma Spelled(b: Bytes, text: string)
    requires |b| == |text| && forall i :: 0 <= i < |text| ==> text[i] < 128 as char && b[i] as int == text[i] as int
    ensures b == Ascii(text)
  {
  }

  lemma LossyKeyText()
    ensures LOSSY_KEY == Ascii("encoding_lossy")
  {
    hide Ascii;
    Spelled(LOSSY_KEY, "encoding_lossy");
  }

  lemma DiagnosticsText()
    ensures DIAGNOSTICS == Ascii("diagnostics")
  {
    hide Ascii;
    Spelled(DIAGNOSTICS, "diagnostics");
  }

  lemma KindText()
    ensures KIND == Ascii("kind")
  {
  }

  lemma TextEncodingText()
    ensures TEXT_ENCODING == Ascii("text_encoding")
  {
    hide Ascii;
    Spelled(TEXT_ENCODING, "text_encoding");
  }

  lemma StatusText()
    ensures STATUS == Ascii("status")
  {
  }

  lemma LossyText()
    ensures LOSSY == Ascii("lossy")
  {
  }

  lemma ReplacedText()
    ensures REPLACED == Ascii("replacement")
  {
  }

  lemma ByText()
    ensures BY == Ascii("U+FFFD")
  {
  }

  /** The texts that are written. */
  lemma NoticeTexts()
    ensures LOSSY_KEY == Ascii("encoding_lossy") && DIAGNOSTICS == Ascii("diagnostics")
    ensures KIND == Ascii("kind") && TEXT_ENCODING == Ascii("text_encoding") && STATUS == Ascii("status")
    ensures LOSSY == Ascii("lossy") && REPLACED == Ascii("replacement") && BY == Ascii("U+FFFD")
  {
    hide *;
    LossyKeyText();
    DiagnosticsText();
    KindText();
    TextEncodingText();
    StatusText();
    LossyText();
    ReplacedText();
    ByText();
  }

  /** The list of diagnostics, with anything that is not a list replaced. */
  function Diagnostics(entries: seq<Entry>): seq<Json> {
    match Lookup(entries, DIAGNOSTICS)
    case Some(List(items)) => items
    case _ => []
  }

  /** What is written: the clean tree, marked when it is an object and something was lost. */
  function Written(v: Json): Json {
    var clean := Clean(v);
    if !LossyTree(v) || !clean.Object? then clean
    else
      var flagged := Put(clean.entries, LOSSY_KEY, Bool(true));
      Object(Put(flagged, DIAGNOSTICS, List(Diagnostics(flagged) + [NOTICE])))
  }

  lemma KeysDiffer()
    ensures LOSSY_KEY != DIAGNOSTICS
  {
    assert LOSSY_KEY[0] != DIAGNOSTICS[0];
  }

  /**
   * What is written says whether something was lost. A tree without U+FFFD in its clean text is written as it is.
   * An object with it says so, whatever it said before, has one more diagnostic, and is the clean one otherwise.
   */
  lemma LossIsReported(v: Value)
    ensures !ContainsTree(Clean(v)) ==> Written(v) == v
    ensures !v.Object? ==> Written(v) == Clean(v)
    ensures v.Object? && ContainsTree(Clean(v)) ==>
              var before := Clean(v).entries;
              && Written(v).Object?
              && Lookup(Written(v).entries, LOSSY_KEY) == Some(Bool(true))
              && Lookup(Written(v).entries, DIAGNOSTICS) == Some(List(Diagnostics(before) + [NOTICE]))
              && forall key :: key != LOSSY_KEY && key != DIAGNOSTICS ==>
                                 Lookup(Written(v).entries, key) == Lookup(before, key)
  {
    hide LossyTree, ContainsTree, Lookup, Put, CleanEntries;
    LossyTreeExact(v);
    KeysDiffer();
    if !LossyTree(v) {
      UnflaggedTree(v);
    } else if v.Object? {
      var before := Clean(v).entries;
      var flagged := Put(before, LOSSY_KEY, Bool(true));
      forall key ensures Lookup(Written(v).entries, key) ==
                         if key == DIAGNOSTICS then Some(List(Diagnostics(flagged) + [NOTICE]))
                         else if key == LOSSY_KEY then Some(Bool(true)) else Lookup(before, key)
      {
        PutExact(before, LOSSY_KEY, Bool(true), key);
        PutExact(flagged, DIAGNOSTICS, List(Diagnostics(flagged) + [NOTICE]), key);
      }
      PutExact(before, LOSSY_KEY, Bool(true), DIAGNOSTICS);
    }
  }

  /** Nothing lost means nothing changed. */
  lemma UnflaggedTree(v: Value)
    requires !LossyTree(v)
    ensures Clean(v) == v
  {
    hide Clean, LossyTree, WellFormedTree;
    UnflaggedWellFormed(v);
    CleanKeepsExactly(v);
  }

  lemma {:induction false} UnflaggedWellFormed(v: Json)
    requires !LossyTree(v)
    ensures WellFormedTree(v)
  {
    hide Lossy, WellFormed;
    match v {
      case Text(text) => UnflaggedExactly(text);
      case List(items) =>
        forall i | 0 <= i < |items| ensures WellFormedTree(items[i]) {
          UnflaggedWellFormed(items[i]);
        }
      case Object(entries) =>
        forall i | 0 <= i < |entries| ensures WellFormed(entries[i].key) && WellFormedTree(entries[i].item) {
          UnflaggedExactly(entries[i].key);
          UnflaggedWellFormed(entries[i].item);
        }
      case _ =>
    }
  }

  // ---- Whatever is written is well-formed --------------------------------------------------------------------

  lemma {:induction false} AsciiWellFormed(s: Bytes)
    requires forall i :: 0 <= i < |s| ==> s[i] <= 0x7f
    ensures WellFormed(s)
  {
    if s != [] {
      AsciiWellFormed(s[1..]);
      assert Char(s[..1]);
    }
  }

  lemma KeysWellFormed()
    ensures WellFormed(LOSSY_KEY) && WellFormed(DIAGNOSTICS)
  {
    hide WellFormed;
    AsciiWellFormed(LOSSY_KEY);
    AsciiWellFormed(DIAGNOSTICS);
  }

  lemma NoticeKeysWellFormed()
    ensures WellFormed(KIND) && WellFormed(STATUS) && WellFormed(REPLACED)
  {
    hide WellFormed;
    AsciiWellFormed(KIND);
    AsciiWellFormed(STATUS);
    AsciiWellFormed(REPLACED);
  }

  lemma NoticeTextsWellFormed()
    ensures WellFormed(TEXT_ENCODING) && WellFormed(LOSSY) && WellFormed(BY)
  {
    hide WellFormed;
    AsciiWellFormed(TEXT_ENCODING);
    AsciiWellFormed(LOSSY);
    AsciiWellFormed(BY);
  }

  lemma NoticeWellFormed()
    ensures WellFormedTree(NOTICE) && WellFormed(LOSSY_KEY) && WellFormed(DIAGNOSTICS)
  {
    hide WellFormed, KIND, STATUS, REPLACED, TEXT_ENCODING, LOSSY, BY, LOSSY_KEY, DIAGNOSTICS;
    KeysWellFormed();
    NoticeKeysWellFormed();
    NoticeTextsWellFormed();
  }

  lemma {:induction false} PutWellFormed(entries: seq<Entry>, key: Bytes, item: Json)
    requires WellFormedTree(Object(entries)) && WellFormed(key) && WellFormedTree(item)
    ensures WellFormedTree(Object(Put(entries, key, item)))
  {
    hide WellFormed;
    if entries != [] && entries[0].key != key {
      assert WellFormedTree(Object(entries[1..]));
      PutWellFormed(entries[1..], key, item);
    }
  }

  /** Whatever value is written, its texts and keys are well-formed. */
  lemma WrittenWellFormed(v: Json)
    ensures WellFormedTree(Written(v))
  {
    hide WellFormed, Clean, LossyTree, Lookup, Put;
    CleanWellFormed(v);
    if LossyTree(v) && Clean(v).Object? {
      NoticeWellFormed();
      var clean := Clean(v).entries;
      PutWellFormed(clean, LOSSY_KEY, Bool(true));
      var flagged := Put(clean, LOSSY_KEY, Bool(true));
      DiagnosticsWellFormed(flagged);
      PutWellFormed(flagged, DIAGNOSTICS, List(Diagnostics(flagged) + [NOTICE]));
    }
  }

  lemma DiagnosticsWellFormed(entries: seq<Entry>)
    requires WellFormedTree(Object(entries))
    ensures WellFormedTree(List(Diagnostics(entries)))
  {
    hide WellFormed;
    if Lookup(entries, DIAGNOSTICS).Some? {
      var i :| 0 <= i < |entries| && entries[i] == Entry(DIAGNOSTICS, Lookup(entries, DIAGNOSTICS).value);
      assert WellFormedTree(entries[i].item);
    }
  }
}
