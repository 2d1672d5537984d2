/** The configuration document and its printed form (internal/core/store.go).

    File contents are token streams: indentation and compaction change no token. A module's
    subtree is an unparsed value. */
module Store {
  import opened Wrappers
  import opened Ordering
  import opened Json

  const SCHEMA_KEY := "$schema"
  const SCHEMA_URL := "https://open-linux-router.org/schema/v1/olr.json"

  datatype Document = Document(keys: map<string, Value>, unknown: seq<string>)

  /** The mounted modules in mount order, and the file on disk; None is a file that does not exist. */
  datatype Disk = Disk(modules: seq<string>, file: Option<seq<Token>>)

  const EMPTY := Document(map[], [])

  // ----- specification -----

  /** Some listing of a set, as ranging over a Go map delivers it. */
  ghost function Listing(s: set<string>): (r: seq<string>)
    ensures Distinct(r) && forall x :: x in r <==> x in s
  {
    if s == {} then [] else
    var x :| x in s;
    var others := Listing(s - {x});
    DistinctCons(x, others);
    [x] + others
  }

  ghost function UnknownKeys(modules: seq<string>, keys: set<string>): seq<string> {
    SortStrings(Listing(set k | k in keys && k !in modules))
  }

  function Mounted(modules: seq<string>, keys: set<string>): seq<string> {
    if modules == [] then []
    else (if modules[0] in keys then [modules[0]] else []) + Mounted(modules[1..], keys)
  }

  ghost function Order(modules: seq<string>, keys: set<string>): seq<string> {
    Mounted(modules, keys) + UnknownKeys(modules, keys)
  }

  function MembersIn(order: seq<string>, keys: map<string, Value>): (ms: seq<Member>)
    requires forall n <- order :: n in keys
    ensures |ms| == |order|
    ensures forall i :: 0 <= i < |order| ==> ms[i] == Member(order[i], keys[order[i]])
  {
    if order == [] then [] else [Member(order[0], keys[order[0]])] + MembersIn(order[1..], keys)
  }

  ghost function Printed(modules: seq<string>, d: Document): Value {
    OrderMembers(modules, d.keys.Keys);
    Object([Member(SCHEMA_KEY, Str(SCHEMA_URL))] + MembersIn(Order(modules, d.keys.Keys), d.keys))
  }

  ghost function Encoded(modules: seq<string>, d: Document): (ts: seq<Token>)
    ensures ts != []
  {
    TokensOf(Printed(modules, d))
  }

  /** Unmarshalling an object into a map: a repeated name keeps its last value. */
  function LastWins(ms: seq<Member>): map<string, Value> {
    if ms == [] then map[] else LastWins(ms[..|ms| - 1])[ms[|ms| - 1].name := ms[|ms| - 1].value]
  }

  /** `json.Unmarshal` into a map of raw values: one object, or null for the empty map. */
  function Unmarshal(data: seq<Token>): Result<map<string, Value>> {
    match ParseValue(data)
    case Some(Parsed(Object(ms), rest)) => if rest == [] then Success(LastWins(ms)) else Failure
    case Some(Parsed(Null, rest)) => if rest == [] then Success(map[]) else Failure
    case _ => Failure
  }

  ghost function Decoded(modules: seq<string>, data: seq<Token>): Result<Document> {
    match Unmarshal(data)
    case Failure => Failure
    case Success(all) =>
      var keys := all - {SCHEMA_KEY};
      Success(Document(keys, UnknownKeys(modules, keys.Keys)))
  }

  ghost function Loaded(disk: Disk): Result<Document> {
    if disk.file.None? then Success(EMPTY) else Decoded(disk.modules, disk.file.value)
  }

  ghost function Saved(disk: Disk, d: Document): Disk {
    disk.(file := Some(Encoded(disk.modules, d)))
  }

  /** `Document.Set` on one module's subtree. */
  function Set(d: Document, name: string, raw: Value): Document {
    d.(keys := d.keys[name := raw])
  }

  // ----- the code -----

  method WriteOrder(modules: seq<string>, d: Document) returns (out: seq<string>)
    ensures out == Order(modules, d.keys.Keys)
  {
    hide UnknownKeys, SortStrings;
    out := [];
    for i := 0 to |modules|
      invariant out + Mounted(modules[i..], d.keys.Keys) == Mounted(modules, d.keys.Keys)
    {
      assert modules[i..][1..] == modules[i + 1..];
      if modules[i] in d.keys {
        out := out + [modules[i]];
      }
    }
    var rest := CollectUnknown(modules, d.keys);
    out := out + SortStrings(rest);
  }

  /** The loop over a map that both `decode` and `writeOrder` run: the keys no module owns, in whatever order. */
  method CollectUnknown(modules: seq<string>, keys: map<string, Value>) returns (rest: seq<string>)
    ensures SortStrings(rest) == UnknownKeys(modules, keys.Keys)
  {
    rest := [];
    var todo := keys.Keys;
    while todo != {}
      invariant todo <= keys.Keys
      invariant Distinct(rest)
      invariant forall k :: k in rest <==> k in keys.Keys - todo && k !in modules
      decreases todo
    {
      var k :| k in todo;
      todo := todo - {k};
      if k !in modules {
        DistinctAppend(rest, k);
        rest := rest + [k];
      }
    }
    ghost var wanted := Listing(set k | k in keys.Keys && k !in modules);
    DistinctSameMembers(rest, wanted);
    SortStringsOrderFree(rest, wanted);
  }

  method Encode(modules: seq<string>, d: Document) returns (out: seq<Token>)
    ensures out == Encoded(modules, d)
  {
    out := [OpenObject, Text(SCHEMA_KEY), Text(SCHEMA_URL)];
    var order := WriteOrder(modules, d);
    OrderMembers(modules, d.keys.Keys);
    out := WriteMembers(out, order, d.keys);
    out := out + [CloseObject];
    EncodedLayout(modules, d);
  }

  method WriteMembers(head: seq<Token>, order: seq<string>, keys: map<string, Value>) returns (out: seq<Token>)
    requires forall n <- order :: n in keys
    ensures out == head + TokensOfMembers(MembersIn(order, keys))
  {
    out := head;
    ghost var ms := MembersIn(order, keys);
    for i := 0 to |order|
      invariant out + TokensOfMembers(ms[i..]) == head + TokensOfMembers(ms)
    {
      assert ms[i..][1..] == ms[i + 1..];
      out := out + [Text(order[i])] + TokensOf(keys[order[i]]);
    }
    assert ms[|order|..] == [];
  }

  /** The printed tokens, laid out in the order the loop writes them. */
  lemma EncodedLayout(modules: seq<string>, d: Document)
    requires forall n <- Order(modules, d.keys.Keys) :: n in d.keys
    ensures Encoded(modules, d) == [OpenObject, Text(SCHEMA_KEY), Text(SCHEMA_URL)] +
                                   TokensOfMembers(MembersIn(Order(modules, d.keys.Keys), d.keys)) + [CloseObject]
  {
    TokensOfCons(Member(SCHEMA_KEY, Str(SCHEMA_URL)), MembersIn(Order(modules, d.keys.Keys), d.keys));
  }

  method Decode(modules: seq<string>, data: seq<Token>) returns (r: Result<Document>)
    ensures r == Decoded(modules, data)
  {
    match Unmarshal(data) {
      case Failure => r := Failure;
      case Success(all) =>
        var keys := all - {SCHEMA_KEY};
        var unknown := CollectUnknown(modules, keys);
        r := Success(Document(keys, SortStrings(unknown)));
    }
  }

  // ----- what the pair promises -----

  lemma TokensOfCons(first: Member, ms: seq<Member>)
    ensures TokensOf(Object([first] + ms)) ==
            [OpenObject, Text(first.name)] + TokensOf(first.value) + TokensOfMembers(ms) + [CloseObject]
  {
    assert ([first] + ms)[1..] == ms;
  }

  lemma DistinctAppend(s: seq<string>, x: string)
    requires Distinct(s) && x !in s
    ensures Distinct(s + [x])
  {}

  lemma {:induction false} MountedMembers(modules: seq<string>, keys: set<string>)
    ensures forall n :: n in Mounted(modules, keys) <==> n in modules && n in keys
    ensures Distinct(modules) ==> Distinct(Mounted(modules, keys))
  {
    if modules != [] {
      MountedMembers(modules[1..], keys);
      assert modules == [modules[0]] + modules[1..];
      DistinctCons(modules[0], modules[1..]);
      DistinctCons(modules[0], Mounted(modules[1..], keys));
      assert [] + Mounted(modules[1..], keys) == Mounted(modules[1..], keys);
    }
  }

  lemma OrderMembers(modules: seq<string>, keys: set<string>)
    ensures forall n :: n in Order(modules, keys) <==> n in keys
    ensures Distinct(modules) ==> Distinct(Order(modules, keys))
  {
    var others := Listing(set k | k in keys && k !in modules);
    MountedMembers(modules, keys);
    SortByMembers(others, Self);
    SortBySorts(others, Self);
    DistinctPermuted(others, SortStrings(others));
    if Distinct(modules) {
      DistinctConcat(Mounted(modules, keys), UnknownKeys(modules, keys));
    }
  }

  /** The members of the printed object: the schema key, then the document's keys in write order. */
  lemma PrintedMembers(modules: seq<string>, d: Document) returns (first: Member, ms: seq<Member>)
    ensures Printed(modules, d) == Object([first] + ms)
    ensures first == Member(SCHEMA_KEY, Str(SCHEMA_URL))
    ensures Names(ms) == Order(modules, d.keys.Keys)
    ensures forall m <- ms :: m.name in d.keys && d.keys[m.name] == m.value
    ensures forall k <- d.keys :: Member(k, d.keys[k]) in ms
  {
    var order := Order(modules, d.keys.Keys);
    OrderMembers(modules, d.keys.Keys);
    first, ms := Member(SCHEMA_KEY, Str(SCHEMA_URL)), MembersIn(order, d.keys);
    forall k | k in d.keys
      ensures Member(k, d.keys[k]) in ms
    {
      var i :| 0 <= i < |order| && order[i] == k;
      assert ms[i] == Member(k, d.keys[k]);
    }
  }

  /** Decoding what was encoded gives back every key but the schema's, and the unknown list recomputed. */
  lemma DecodeEncoded(modules: seq<string>, d: Document)
    ensures Decoded(modules, Encoded(modules, d)) ==
            Success(Document(d.keys - {SCHEMA_KEY}, UnknownKeys(modules, (d.keys - {SCHEMA_KEY}).Keys)))
  {
    var schema, ms := PrintedMembers(modules, d);
    UnmarshalPrinted([schema] + ms);
    OrderMembers(modules, d.keys.Keys);
    LastWinsRest(ms, d.keys, schema);
  }

  lemma LastWinsRest(ms: seq<Member>, keys: map<string, Value>, first: Member)
    requires forall m <- ms :: m.name in keys && keys[m.name] == m.value
    requires forall k :: k in keys <==> k in Names(ms)
    ensures LastWins([first] + ms) - {first.name} == keys - {first.name}
  {
    LastWinsPrinted(ms, keys, first);
  }

  lemma UnmarshalPrinted(ms: seq<Member>)
    ensures Unmarshal(TokensOf(Object(ms))) == Success(LastWins(ms))
  {
    ParsePrinted(Object(ms), []);
    assert TokensOf(Object(ms)) + [] == TokensOf(Object(ms));
  }

  lemma {:induction false} LastWinsPrinted(ms: seq<Member>, keys: map<string, Value>, first: Member)
    requires forall m <- ms :: m.name in keys && keys[m.name] == m.value
    ensures LastWins([first] + ms).Keys == {first.name} + set n | n in Names(ms)
    ensures forall n <- LastWins([first] + ms) :: n != first.name ==> n in keys && LastWins([first] + ms)[n] == keys[n]
  {
    var all := [first] + ms;
    if ms == [] {
      assert all[..0] == [];
    } else {
      var init := ms[..|ms| - 1];
      assert all[..|all| - 1] == [first] + init;
      assert ms == init + [ms[|ms| - 1]];
      assert Names(ms) == Names(init) + [ms[|ms| - 1].name];
      LastWinsPrinted(init, keys, first);
    }
  }

  /** The document survives the disk exactly when it holds no schema key of its own and its unknown list is current. */
  ghost predicate Settled(modules: seq<string>, d: Document) {
    SCHEMA_KEY !in d.keys && d.unknown == UnknownKeys(modules, d.keys.Keys)
  }

  lemma RoundTrip(modules: seq<string>, d: Document)
    ensures Decoded(modules, Encoded(modules, d)) == Success(d) <==> Settled(modules, d)
  {
    DecodeEncoded(modules, d);
    if SCHEMA_KEY in d.keys {
      assert SCHEMA_KEY !in d.keys - {SCHEMA_KEY};
    } else {
      assert d.keys - {SCHEMA_KEY} == d.keys;
    }
  }

  /** Everything decoding returns survives the disk. */
  lemma DecodedSettled(modules: seq<string>, data: seq<Token>)
    requires Decoded(modules, data).Success?
    ensures Settled(modules, Decoded(modules, data).value)
  {}

  /** Replacing a mounted module's subtree keeps a document settled. */
  lemma SetSettled(modules: seq<string>, d: Document, name: string, raw: Value)
    requires Settled(modules, d) && name in modules && SCHEMA_KEY !in modules
    ensures Settled(modules, Set(d, name, raw))
  {
    var keys := d.keys.Keys;
    assert (set k | k in keys && k !in modules) == (set k | k in keys + {name} && k !in modules);
    assert Set(d, name, raw).keys.Keys == keys + {name};
  }

  /** What `encode` writes passes the duplicate check of a restore exactly when no subtree repeats a
      name and the document does not smuggle in a second schema key. */
  lemma EncodedIsUnique(modules: seq<string>, d: Document)
    requires Distinct(modules)
    ensures (exists v :: Unique(v) && Encoded(modules, d) == TokensOf(v)) <==>
            SCHEMA_KEY !in d.keys && forall k <- d.keys :: Unique(d.keys[k])
  {
    var v := Printed(modules, d);
    OnlyPrint(v);
    var first, ms := PrintedMembers(modules, d);
    OrderMembers(modules, d.keys.Keys);
    UniqueCons(first, ms);
  }

  /** A token stream is the print of at most one value. */
  lemma OnlyPrint(v: Value)
    ensures (exists w :: Unique(w) && TokensOf(v) == TokensOf(w)) <==> Unique(v)
  {
    forall w | TokensOf(w) == TokensOf(v)
      ensures w == v
    {
      ParsePrinted(w, []);
      ParsePrinted(v, []);
    }
  }

  lemma UniqueCons(first: Member, ms: seq<Member>)
    ensures Unique(Object([first] + ms)) <==>
            first.name !in Names(ms) && Unique(first.value) && Distinct(Names(ms)) && forall m <- ms :: Unique(m.value)
  {
    assert Names([first] + ms) == [first.name] + Names(ms);
    DistinctCons(first.name, Names(ms));
    assert forall m :: m in [first] + ms <==> m == first || m in ms;
  }

  // ----- the parts, one by one -----

  /** Mounted modules are written in mount order, those that are there. */
  lemma {:induction false} MountedIs(a: seq<string>, b: seq<string>, module_: string, keys: set<string>)
    ensures Mounted(a + b, keys) == Mounted(a, keys) + Mounted(b, keys)
    ensures Mounted([module_], keys) == if module_ in keys then [module_] else []
  {
    MountedCons(module_, [], keys);
    assert [module_] + [] == [module_];
    if a == [] {
      assert a + b == b;
    } else {
      MountedCons(a[0], a[1..] + b, keys);
      MountedCons(a[0], a[1..], keys);
      assert a + b == [a[0]] + (a[1..] + b) && a == [a[0]] + a[1..];
      hide Mounted;
      MountedIs(a[1..], b, module_, keys);
    }
  }

  lemma MountedCons(m: string, modules: seq<string>, keys: set<string>)
    ensures Mounted([m] + modules, keys) == (if m in keys then [m] else []) + Mounted(modules, keys)
    ensures Mounted([], keys) == []
  {
    assert ([m] + modules)[1..] == modules;
  }

  lemma UnknownAre(modules: seq<string>, keys: set<string>)
    ensures var rest := UnknownKeys(modules, keys);
            Sorted(rest, Self) && Distinct(rest) && forall k :: k in rest <==> k !in modules && k in keys
  {
    var listed := Listing(set k | k in keys && k !in modules);
    SortBySorts(listed, Self);
    SortByMembers(listed, Self);
    DistinctPermuted(listed, SortStrings(listed));
  }

  /** The order of writing: every key once; the mounted modules' first, in mount order, then the others sorted. */
  lemma OrderMeans(modules: seq<string>, keys: set<string>)
    requires Distinct(modules)
    ensures var o, n := Order(modules, keys), |Mounted(modules, keys)|;
            && Distinct(o) && (forall k :: k in o <==> k in keys)
            && n <= |o| && o[..n] == Mounted(modules, keys) && Sorted(o[n..], Self)
            && (forall k :: k in o[..n] <==> k in modules && k in keys)
            && (forall k :: k in o[n..] <==> k !in modules && k in keys)
  {
    OrderMembers(modules, keys);
    MountedMembers(modules, keys);
    UnknownAre(modules, keys);
    var m, rest := Mounted(modules, keys), UnknownKeys(modules, keys);
    assert (m + rest)[..|m|] == m && (m + rest)[|m|..] == rest;
    hide Mounted, UnknownKeys, Sorted, Distinct;
    assert forall k :: k in m + rest <==> k in m || k in rest;
  }

  /** Of members with the same name the last one's value is kept. */
  lemma {:induction false} LastWinsMeans(ms: seq<Member>, i: nat)
    requires i < |ms| && forall j :: i < j < |ms| ==> ms[j].name != ms[i].name
    ensures ms[i].name in LastWins(ms) && LastWins(ms)[ms[i].name] == ms[i].value
    ensures forall k <- LastWins(ms) :: k in Names(ms)
  {
    LastWinsNames(ms);
    if i < |ms| - 1 {
      LastWinsMeans(ms[..|ms| - 1], i);
    }
  }

  lemma {:induction false} LastWinsNames(ms: seq<Member>)
    ensures forall k <- LastWins(ms) :: k in Names(ms)
  {
    if ms != [] {
      var init := ms[..|ms| - 1];
      LastWinsNames(init);
      assert Names(ms) == Names(init) + [ms[|ms| - 1].name];
    }
  }

  /** A file can be read exactly if it is the print of one object or of null, and then its keys are the object's but for
      the schema key. */
  lemma DecodedMeans(modules: seq<string>, data: seq<Token>)
    ensures Decoded(modules, data).Success? <==> exists v :: data == TokensOf(v) && (v.Null? || v.Object?)
    ensures forall ms :: data == TokensOf(Object(ms)) ==>
              Decoded(modules, data).Success? && Decoded(modules, data).value.keys == LastWins(ms) - {SCHEMA_KEY}
    ensures data == TokensOf(Null) ==> Decoded(modules, data).Success? && Decoded(modules, data).value.keys == map[]
  {
    var parsed := ParseValue(data);
    if parsed.Some? { ParseSound(data); }
    forall v | data == TokensOf(v)
      ensures parsed == Some(Parsed(v, []))
    {
      ParsePrinted(v, []);
      assert TokensOf(v) + [] == data;
    }
    hide ParseValue, TokensOf, LastWins;
    if Decoded(modules, data).Success? { assert TokensOf(parsed.value.item) + [] == TokensOf(parsed.value.item); }
  }

  /** Before there is a file, nothing is configured. */
  lemma NoFileIsEmpty(modules: seq<string>)
    ensures Loaded(Disk(modules, None)).Success? && Loaded(Disk(modules, None)).value == Document(map[], [])
  {}

  /** A subtree that was set is the one read back, and no other key is touched. */
  lemma SetReadsBack(disk: Disk, d: Document, name: string, raw: Value)
    requires Settled(disk.modules, d) && name in disk.modules && SCHEMA_KEY !in disk.modules
    ensures var now := Loaded(Saved(disk, Set(d, name, raw)));
            && now.Success? && now.value.keys.Keys == d.keys.Keys + {name}
            && now.value.keys[name] == raw && forall k <- d.keys :: k != name ==> now.value.keys[k] == d.keys[k]
  {
    hide Encoded, Decoded, Settled;
    SetSettled(disk.modules, d, name, raw);
    RoundTrip(disk.modules, Set(d, name, raw));
  }
}
