/** The in-memory index of one signature file (SignatureFile.java): four multimaps from a
    key to a list of method signatures, filled line by line, plus the static `populate`
    that records which files hold which hashes and class names.

    Java's MethodSignature objects are shared between the lists and are updated in place
    by `addRevision`; here they live in an arena (`records`) and the lists hold their ids. */
module SignatureFiles {
  import opened Wrappers
  import opened JavaStrings

  type SigId = nat

  /** What `MethodSignature.equalsMethodSig` compares: owning class, method name,
      shorty and prototype. */
  datatype SigKey = SigKey(cname: string, mname: string, shorty: string, prototype: string)

  /** The per-line part of a signature: hashes, recorded caller and version tags. */
  datatype Revision = Revision(tight: string, loose: string, caller: string, versions: seq<string>)

  /** What `MethodSignature.parse` yields for one line: an identity and its own revision. */
  datatype Parsed = Parsed(key: SigKey, own: Revision)

  /** One MethodSignature object: its identity, its own revision, and the revisions
      `addRevision` has merged into it since. */
  datatype SigRecord = SigRecord(key: SigKey, own: Revision, added: seq<Revision>)

  type Multimap = map<string, seq<SigId>>

  /** The four indices and the arena they point into. */
  datatype Index = Index(records: seq<SigRecord>, tight: Multimap, loose: Multimap,
                         byClass: Multimap, meta: Multimap)

  const EmptyIndex := Index([], map[], map[], map[], map[])

  /** A map lookup where an absent key reads as an empty list. */
  function Get(m: Multimap, k: string): seq<SigId> {
    if k in m then m[k] else []
  }

  /** `saveValue`: append one element to the list at `key`, creating the list if absent. */
  function SaveValue(m: Multimap, key: string, v: SigId): (r: Multimap)
    ensures r.Keys == m.Keys + {key}
    ensures r[key] == Get(m, key) + [v]
    ensures forall k :: k in m && k != key ==> r[k] == m[k]
  {
    m[key := Get(m, key) + [v]]
  }

  // ---------------------------------------------------------------------------
  // Invariant of the index

  predicate IdsBelow(m: Multimap, n: nat) {
    forall k, i :: k in m && 0 <= i < |m[k]| ==> m[k][i] < n
  }

  /** Every list entry names an allocated signature. */
  predicate Wf(ix: Index) {
    var n := |ix.records|;
    IdsBelow(ix.tight, n) && IdsBelow(ix.loose, n) && IdsBelow(ix.byClass, n) && IdsBelow(ix.meta, n)
  }

  lemma SaveValueBelow(m: Multimap, key: string, v: SigId, n: nat)
    requires IdsBelow(m, n) && v < n
    ensures IdsBelow(SaveValue(m, key, v), n)
  {
    var r := SaveValue(m, key, v);
    forall k, i | k in r && 0 <= i < |r[k]| ensures r[k][i] < n {
      if k == key && i == |r[k]| - 1 { } else if k == key { assert r[k][i] == Get(m, key)[i]; }
    }
  }

  predicate NoDup(ids: seq<SigId>) {
    forall i, j :: 0 <= i < j < |ids| ==> ids[i] != ids[j]
  }

  /** No two signatures of the list are `equalsMethodSig`-equal. */
  predicate DistinctKeys(records: seq<SigRecord>, ids: seq<SigId>)
    requires forall i :: 0 <= i < |ids| ==> ids[i] < |records|
  {
    forall i, j :: 0 <= i < j < |ids| ==> records[ids[i]].key != records[ids[j]].key
  }

  /** A by-class-name list: non-empty, all of that class, pairwise distinct identities. */
  predicate ClassList(records: seq<SigRecord>, k: string, ids: seq<SigId>) {
    && ids != []
    && (forall i :: 0 <= i < |ids| ==> ids[i] < |records|)
    && (forall i :: 0 <= i < |ids| ==> records[ids[i]].key.cname == k)
    && DistinctKeys(records, ids)
  }

  ghost predicate ClassListsOk(records: seq<SigRecord>, m: Multimap) {
    forall k :: k in m ==> ClassList(records, k, m[k])
  }

  /** The signature `id` is the representative stored under its own class name. */
  predicate InClassIndex(records: seq<SigRecord>, byClass: Multimap, id: SigId)
    requires id < |records|
  {
    var c := records[id].key.cname;
    c in byClass && id in byClass[c]
  }

  /** A hash list: non-empty, without repetition, holding only class representatives. */
  predicate HashList(records: seq<SigRecord>, byClass: Multimap, ids: seq<SigId>) {
    && ids != []
    && NoDup(ids)
    && (forall i :: 0 <= i < |ids| ==> ids[i] < |records| && InClassIndex(records, byClass, ids[i]))
  }

  ghost predicate HashListsOk(records: seq<SigRecord>, byClass: Multimap, m: Multimap) {
    forall h :: h in m ==> HashList(records, byClass, m[h])
  }

  /** The invariant the loader keeps: class lists free of `equalsMethodSig` duplicates,
      hash lists free of repetitions and holding only class representatives. */
  ghost predicate IndexValid(ix: Index) {
    && Wf(ix)
    && ClassListsOk(ix.records, ix.byClass)
    && ClassListsOk(ix.records, ix.meta)
    && HashListsOk(ix.records, ix.byClass, ix.tight)
    && HashListsOk(ix.records, ix.byClass, ix.loose)
  }

  /** Two arenas that agree on every identity. */
  predicate SameKeys(r1: seq<SigRecord>, r2: seq<SigRecord>) {
    |r1| == |r2| && forall j :: 0 <= j < |r1| ==> r1[j].key == r2[j].key
  }

  lemma ClassListsSameKeys(r1: seq<SigRecord>, r2: seq<SigRecord>, m: Multimap)
    requires ClassListsOk(r1, m) && SameKeys(r1, r2)
    ensures ClassListsOk(r2, m)
  {
    forall k | k in m ensures ClassList(r2, k, m[k]) {
      assert ClassList(r1, k, m[k]);
    }
  }

  /** Hash lists stay valid when identities are kept and class lists only grow. */
  lemma HashListsGrow(r1: seq<SigRecord>, b1: Multimap, r2: seq<SigRecord>, b2: Multimap, m: Multimap)
    requires HashListsOk(r1, b1, m) && SameKeys(r1, r2)
    requires forall k :: k in b1 ==> k in b2 && forall id :: id in b1[k] ==> id in b2[k]
    ensures HashListsOk(r2, b2, m)
  {
    forall h | h in m ensures HashList(r2, b2, m[h]) {
      assert HashList(r1, b1, m[h]);
      forall i | 0 <= i < |m[h]| ensures InClassIndex(r2, b2, m[h][i]) {
        assert InClassIndex(r1, b1, m[h][i]);
      }
    }
  }

  /** Appending a class representative that a hash list does not yet hold keeps it valid. */
  lemma HashListsSave(records: seq<SigRecord>, byClass: Multimap, m: Multimap, h: string, rep: SigId)
    requires HashListsOk(records, byClass, m)
    requires rep < |records| && InClassIndex(records, byClass, rep) && rep !in Get(m, h)
    ensures HashListsOk(records, byClass, SaveValue(m, h, rep))
  {
    var r := SaveValue(m, h, rep);
    var l := Get(m, h) + [rep];
    assert r[h] == l;
    assert NoDup(l) by {
      forall i, j | 0 <= i < j < |l| ensures l[i] != l[j] {
        if j == |l| - 1 { assert l[i] in Get(m, h); }
      }
    }
    assert h in m ==> HashList(records, byClass, m[h]);
  }

  /** Appending a signature whose identity its class list does not hold keeps it valid. */
  lemma ClassListsSave(records: seq<SigRecord>, m: Multimap, id: SigId)
    requires ClassListsOk(records, m) && id < |records|
    requires var c := records[id].key.cname;
      forall i :: 0 <= i < |Get(m, c)| ==> Get(m, c)[i] < |records| && records[Get(m, c)[i]].key != records[id].key
    ensures ClassListsOk(records, SaveValue(m, records[id].key.cname, id))
  {
    var c := records[id].key.cname;
    var list := Get(m, c);
    var nl := list + [id];
    assert c in m ==> ClassList(records, c, m[c]);
    assert DistinctKeys(records, nl) by {
      forall i, j | 0 <= i < j < |nl|
        ensures records[nl[i]].key != records[nl[j]].key
      {
        if j == |list| { assert nl[i] == list[i]; }
      }
    }
    assert ClassList(records, c, nl);
  }

  // ---------------------------------------------------------------------------
  // storeMethodHash and the meta list, as functions of the index

  /** The first signature of `ids` with identity `key` (the loop at lines 128-136). */
  function FindEqual(records: seq<SigRecord>, ids: seq<SigId>, key: SigKey): (r: Option<SigId>)
    requires forall i :: 0 <= i < |ids| ==> ids[i] < |records|
    ensures r.Some? ==> r.value in ids && records[r.value].key == key
    ensures r.None? ==> forall i :: 0 <= i < |ids| ==> records[ids[i]].key != key
  {
    if ids == [] then None
    else if records[ids[0]].key == key then Some(ids[0])
    else FindEqual(records, ids[1..], key)
  }

  /** `addRevision` on the signature `id`. */
  function AddRevision(records: seq<SigRecord>, id: SigId, rev: Revision): (r: seq<SigRecord>)
    requires id < |records|
    ensures SameKeys(records, r)
  {
    records[id := records[id].(added := records[id].added + [rev])]
  }

  /** The signature already listed under `id`'s class name with `id`'s identity, if any. */
  function Existing(ix: Index, id: SigId): (r: Option<SigId>)
    requires id < |ix.records| && Wf(ix)
    ensures r.Some? ==> r.value < |ix.records| && r.value in Get(ix.byClass, ix.records[id].key.cname)
                        && ix.records[r.value].key == ix.records[id].key
    ensures r.None? ==> forall j :: j in Get(ix.byClass, ix.records[id].key.cname) ==> j < |ix.records| && ix.records[j].key != ix.records[id].key
  {
    var list := Get(ix.byClass, ix.records[id].key.cname);
    assert forall i :: 0 <= i < |list| ==> list[i] < |ix.records|;
    FindEqual(ix.records, list, ix.records[id].key)
  }

  /** The representative that `storeMethodHash` files `id` under. */
  function Representative(ix: Index, id: SigId): (rep: SigId)
    requires id < |ix.records| && Wf(ix)
    ensures rep < |ix.records| && ix.records[rep].key == ix.records[id].key
  {
    var found := Existing(ix, id);
    if found.Some? then found.value else id
  }

  /** The index after `storeMethodHash` of the freshly parsed signature `id` (lines 123-146). */
  function AfterStoreMethodHash(ix: Index, id: SigId): (r: Index)
    requires id < |ix.records| && Wf(ix)
    ensures Wf(r) && SameKeys(ix.records, r.records) && r.meta == ix.meta
  {
    var sig := ix.records[id];
    var found := Existing(ix, id);
    var rep := Representative(ix, id);
    var records := if found.Some? then AddRevision(ix.records, rep, sig.own) else ix.records;
    var tight := if found.None? || rep !in Get(ix.tight, sig.own.tight)
                 then SaveValue(ix.tight, sig.own.tight, rep) else ix.tight;
    var loose := if found.None? || rep !in Get(ix.loose, sig.own.loose)
                 then SaveValue(ix.loose, sig.own.loose, rep) else ix.loose;
    var byClass := if found.None? then SaveValue(ix.byClass, sig.key.cname, rep) else ix.byClass;
    SaveValueBelow(ix.tight, sig.own.tight, rep, |ix.records|);
    SaveValueBelow(ix.loose, sig.own.loose, rep, |ix.records|);
    SaveValueBelow(ix.byClass, sig.key.cname, rep, |ix.records|);
    Index(records, tight, loose, byClass, ix.meta)
  }

  /** `AfterStoreMethodHash` spelled out once the lookup of lines 127-135 has been done. */
  lemma StoreMethodHashSteps(ix: Index, id: SigId, found: Option<SigId>)
    requires id < |ix.records| && Wf(ix) && found == FindEqual(ix.records, Get(ix.byClass, ix.records[id].key.cname), ix.records[id].key)
    ensures found == Existing(ix, id)
    ensures
      var sig := ix.records[id];
      var rep := if found.Some? then found.value else id;
      var nt := found.None? || rep !in Get(ix.tight, sig.own.tight);
      var nl := found.None? || rep !in Get(ix.loose, sig.own.loose);
      AfterStoreMethodHash(ix, id) ==
      Index(if found.Some? then AddRevision(ix.records, rep, sig.own) else ix.records,
            if nt then SaveValue(ix.tight, sig.own.tight, rep) else ix.tight,
            if nl then SaveValue(ix.loose, sig.own.loose, rep) else ix.loose,
            if found.None? then SaveValue(ix.byClass, sig.key.cname, rep) else ix.byClass, ix.meta)
  {
  }

  /** The index after the meta-list step for a second-form line (lines 94-105). */
  function AfterStoreMeta(ix: Index, id: SigId): (r: Index)
    requires id < |ix.records| && Wf(ix)
    ensures Wf(r) && SameKeys(ix.records, r.records)
    ensures r.byClass == ix.byClass && r.tight == ix.tight && r.loose == ix.loose
  {
    var sig := ix.records[id];
    var list := Get(ix.meta, sig.key.cname);
    assert forall i :: 0 <= i < |list| ==> list[i] < |ix.records|;
    var found := FindEqual(ix.records, list, sig.key);
    SaveValueBelow(ix.meta, sig.key.cname, id, |ix.records|);
    if found.Some? then ix.(records := AddRevision(ix.records, found.value, sig.own))
    else ix.(meta := SaveValue(ix.meta, sig.key.cname, id))
  }

  /** A new signature, filed in the meta list or not, is valid to store under its hashes. */
  lemma NewRecordValid(ix: Index, p: Parsed, isMeta: bool)
    requires IndexValid(ix)
    ensures var ix1 := Alloc(ix, p);
      var ix2 := if isMeta then AfterStoreMeta(ix1, |ix.records|) else ix1;
      IndexValid(ix1) && IndexValid(ix2) && !InClassIndex(ix2.records, ix2.byClass, |ix.records|)
  {
    AllocValid(ix, p);
    if isMeta {
      StoreMetaValid(Alloc(ix, p), |ix.records|);
    }
  }

  /** `storeMethodHash` keeps the index valid. */
  lemma StoreMethodHashValid(ix: Index, id: SigId)
    requires IndexValid(ix) && id < |ix.records| && !InClassIndex(ix.records, ix.byClass, id)
    ensures IndexValid(AfterStoreMethodHash(ix, id))
  {
    var sig := ix.records[id];
    var found := Existing(ix, id);
    var rep := Representative(ix, id);
    var ix' := AfterStoreMethodHash(ix, id);
    ClassListsSameKeys(ix.records, ix'.records, ix.meta);
    if found.Some? {
      ClassListsSameKeys(ix.records, ix'.records, ix.byClass);
      HashListsGrow(ix.records, ix.byClass, ix'.records, ix'.byClass, ix.tight);
      HashListsGrow(ix.records, ix.byClass, ix'.records, ix'.byClass, ix.loose);
      assert InClassIndex(ix'.records, ix'.byClass, rep);
      if rep !in Get(ix.tight, sig.own.tight) {
        HashListsSave(ix'.records, ix'.byClass, ix.tight, sig.own.tight, rep);
      }
      if rep !in Get(ix.loose, sig.own.loose) {
        HashListsSave(ix'.records, ix'.byClass, ix.loose, sig.own.loose, rep);
      }
    } else {
      ClassListsSave(ix.records, ix.byClass, id);
      HashListsGrow(ix.records, ix.byClass, ix'.records, ix'.byClass, ix.tight);
      HashListsGrow(ix.records, ix.byClass, ix'.records, ix'.byClass, ix.loose);
      assert InClassIndex(ix'.records, ix'.byClass, id);
      // `id` was in no hash list, since hash lists hold only class representatives.
      assert id !in Get(ix.tight, sig.own.tight) by {
        if sig.own.tight in ix.tight { assert HashList(ix.records, ix.byClass, ix.tight[sig.own.tight]); }
      }
      assert id !in Get(ix.loose, sig.own.loose) by {
        if sig.own.loose in ix.loose { assert HashList(ix.records, ix.byClass, ix.loose[sig.own.loose]); }
      }
      HashListsSave(ix'.records, ix'.byClass, ix.tight, sig.own.tight, id);
      HashListsSave(ix'.records, ix'.byClass, ix.loose, sig.own.loose, id);
    }
  }

  /** After `storeMethodHash` the representative is listed under its class name, its
      tight hash and its loose hash exactly once; a merge does not grow the class list,
      and only a genuinely new identity is appended to it. */
  lemma {:induction false} StoreMethodHashIndexes(ix: Index, id: SigId)
    requires IndexValid(ix) && id < |ix.records| && !InClassIndex(ix.records, ix.byClass, id)
    ensures var ix' := AfterStoreMethodHash(ix, id);
      var rep := Representative(ix, id);
      var sig := ix.records[id];
      && rep in ix'.tight[sig.own.tight] && rep in ix'.loose[sig.own.loose]
      && rep in ix'.byClass[sig.key.cname]
      && NoDup(ix'.tight[sig.own.tight]) && NoDup(ix'.loose[sig.own.loose])
      && (rep != id ==> ix'.byClass == ix.byClass && ix'.records[rep].added == ix.records[rep].added + [sig.own])
      && (rep == id ==> ix'.byClass[sig.key.cname] == Get(ix.byClass, sig.key.cname) + [id]
                        && ix'.records == ix.records)
  {
    StoreMethodHashValid(ix, id);
    var ix' := AfterStoreMethodHash(ix, id);
    var sig := ix.records[id];
    assert HashList(ix'.records, ix'.byClass, ix'.tight[sig.own.tight]);
    assert HashList(ix'.records, ix'.byClass, ix'.loose[sig.own.loose]);
  }

  /** The meta step keeps the index valid and leaves the class-name, tight and loose lists alone. */
  lemma StoreMetaValid(ix: Index, id: SigId)
    requires IndexValid(ix) && id < |ix.records|
    ensures IndexValid(AfterStoreMeta(ix, id))
    ensures forall j :: 0 <= j < |ix.records| ==>
      (InClassIndex(AfterStoreMeta(ix, id).records, ix.byClass, j) <==> InClassIndex(ix.records, ix.byClass, j))
  {
    var sig := ix.records[id];
    var list := Get(ix.meta, sig.key.cname);
    var found := FindEqual(ix.records, list, sig.key);
    var ix' := AfterStoreMeta(ix, id);
    ClassListsSameKeys(ix.records, ix'.records, ix.byClass);
    ClassListsSameKeys(ix.records, ix'.records, ix.meta);
    HashListsGrow(ix.records, ix.byClass, ix'.records, ix'.byClass, ix.tight);
    HashListsGrow(ix.records, ix.byClass, ix'.records, ix'.byClass, ix.loose);
    if found.None? {
      ClassListsSave(ix.records, ix.meta, id);
    }
  }

  // ---------------------------------------------------------------------------
  // The line loop of loadSignatures

  /** What `LibraryInfo`'s setters have been given; None where a setter was never called. */
  datatype LibraryInfo = LibraryInfo(version: Option<int>, libName: Option<string>, author: Option<string>)

  const NoInfo := LibraryInfo(None, None, None)

  /** `checkMarker`: the trimmed remainder when `line` starts with `marker=`, else null. */
  function CheckMarker(line: string, marker: string): (r: Option<string>)
    ensures r.Some? <==> StartsWith(line, marker + "=")
  {
    if StartsWith(line, marker + "=") then Some(Trim(line[|marker| + 1..])) else None
  }

  /** A value written without surrounding whitespace comes back unchanged. */
  lemma CheckMarkerRoundTrip(marker: string, v: string)
    requires v == "" || (!IsTrimmable(v[0]) && !IsTrimmable(v[|v| - 1]))
    ensures CheckMarker(marker + "=" + v, marker) == Some(v)
  {
    var line := marker + "=" + v;
    assert line[..|marker + "="|] == marker + "=";
    assert line[|marker| + 1..] == v;
    if v != "" {
      assert TrimStart(v) == 0;
      assert TrimEnd(v) == |v|;
      assert v[0..|v|] == v;
    }
  }

  /** `checkMarker` trims the value after `marker=`: a line `version= 3 ` gives "3". */
  lemma CheckMarkerExample()
    ensures CheckMarker("version= 3 ", "version") == Some("3")
  {
    var rest := "version= 3 "[8..];
    assert rest == " 3 ";
    assert TrimStart(" 3 ") == 1 by {
      assert " 3 "[1..] == "3 ";
      assert TrimStart("3 ") == 0;
    }
    assert TrimEnd(" 3 ") == 2 by {
      assert " 3 "[..2] == " 3";
      assert TrimEnd(" 3") == 2;
    }
    assert " 3 "[1..2] == "3";
  }

  /** The three markers a metadata line may carry, applied in the source's order. */
  function ApplyMarkers(info: LibraryInfo, rest: string, toInt: string -> int): LibraryInfo {
    var v := CheckMarker(rest, "version");
    var i1 := if v.Some? then info.(version := Some(toInt(v.value))) else info;
    var n := CheckMarker(rest, "libname");
    var i2 := if n.Some? then i1.(libName := Some(n.value)) else i1;
    var a := CheckMarker(rest, "author");
    if a.Some? then i2.(author := Some(a.value)) else i2
  }

  /** How one line of a signature file is read (lines 59-93). */
  datatype LineKind =
    | Blank
    | Metadata(rest: string)
    | Record(p: Parsed)        // first record form, with hashes
    | MetaRecord(p: Parsed)    // second form: inheritance metadata
    | Invalid

  function Classify(raw: string, parse: string -> Option<Parsed>, parseMeta: string -> Option<Parsed>): LineKind {
    var line := Trim(raw);
    if line == "" then Blank
    else if StartsWith(line, ";") then Metadata(line[1..])
    else if parse(line).Some? then Record(parse(line).value)
    else if parseMeta(line).Some? then MetaRecord(parseMeta(line).value)
    else Invalid
  }

  /** Everything the line loop changes: the index, `allSignatureCount`, the library info. */
  datatype Loader = Loader(ix: Index, count: nat, info: LibraryInfo)

  /** Allocate the MethodSignature object a parsed line creates. */
  function Alloc(ix: Index, p: Parsed): (r: Index)
    requires Wf(ix)
    ensures Wf(r) && |r.records| == |ix.records| + 1
  {
    ix.(records := ix.records + [SigRecord(p.key, p.own, [])])
  }

  /** A new signature object is valid to add and is in no list yet. */
  lemma AllocValid(ix: Index, p: Parsed)
    requires IndexValid(ix)
    ensures var ix' := Alloc(ix, p);
      IndexValid(ix') && !InClassIndex(ix'.records, ix'.byClass, |ix.records|)
  {
    var ix' := Alloc(ix, p);
    var n := |ix.records|;
    assert SameKeys(ix.records, ix'.records[..n]);
    forall k | k in ix.byClass ensures ClassList(ix'.records, k, ix.byClass[k]) {
      assert ClassList(ix.records, k, ix.byClass[k]);
    }
    forall k | k in ix.meta ensures ClassList(ix'.records, k, ix.meta[k]) {
      assert ClassList(ix.records, k, ix.meta[k]);
    }
    forall h | h in ix.tight ensures HashList(ix'.records, ix.byClass, ix.tight[h]) {
      assert HashList(ix.records, ix.byClass, ix.tight[h]);
    }
    forall h | h in ix.loose ensures HashList(ix'.records, ix.byClass, ix.loose[h]) {
      assert HashList(ix.records, ix.byClass, ix.loose[h]);
    }
    var c := p.key.cname;
    assert c in ix.byClass ==> n !in ix.byClass[c];
  }

  /** One step of the loop of `loadSignatures` (lines 58-111). */
  function AfterLine(ld: Loader, raw: string, parse: string -> Option<Parsed>,
                     parseMeta: string -> Option<Parsed>, toInt: string -> int): (r: Loader)
    requires Wf(ld.ix)
    ensures Wf(r.ix)
  {
    match Classify(raw, parse, parseMeta)
    case Blank => ld
    case Invalid => ld
    case Metadata(rest) => ld.(info := ApplyMarkers(ld.info, rest, toInt))
    case Record(p) =>
      var id := |ld.ix.records|;
      Loader(AfterStoreMethodHash(Alloc(ld.ix, p), id), ld.count + 1, ld.info)
    case MetaRecord(p) =>
      var id := |ld.ix.records|;
      Loader(AfterStoreMethodHash(AfterStoreMeta(Alloc(ld.ix, p), id), id), ld.count + 1, ld.info)
  }

  /** A first-form line: allocate, then `storeMethodHash`. */
  lemma RecordLineValid(ix: Index, p: Parsed)
    requires IndexValid(ix)
    ensures IndexValid(AfterStoreMethodHash(Alloc(ix, p), |ix.records|))
  {
    AllocValid(ix, p);
    StoreMethodHashValid(Alloc(ix, p), |ix.records|);
  }

  /** A second-form line: allocate, the meta-list step, then `storeMethodHash`. */
  lemma MetaLineValid(ix: Index, p: Parsed)
    requires IndexValid(ix)
    ensures var id := |ix.records|;
      IndexValid(AfterStoreMethodHash(AfterStoreMeta(Alloc(ix, p), id), id))
  {
    var id := |ix.records|;
    var ix1 := Alloc(ix, p);
    AllocValid(ix, p);
    StoreMetaValid(ix1, id);
    StoreMethodHashValid(AfterStoreMeta(ix1, id), id);
  }

  /** What a line in either record form does to the loader. */
  lemma RecordLine(ld: Loader, raw: string, parse: string -> Option<Parsed>,
                   parseMeta: string -> Option<Parsed>, toInt: string -> int)
    requires Wf(ld.ix)
    requires Classify(raw, parse, parseMeta).Record? || Classify(raw, parse, parseMeta).MetaRecord?
    ensures var k := Classify(raw, parse, parseMeta);
      var id := |ld.ix.records|;
      var ix1 := Alloc(ld.ix, k.p);
      AfterLine(ld, raw, parse, parseMeta, toInt)
        == Loader(AfterStoreMethodHash(if k.MetaRecord? then AfterStoreMeta(ix1, id) else ix1, id), ld.count + 1, ld.info)
  {
  }

  lemma AfterLineValid(ld: Loader, raw: string, parse: string -> Option<Parsed>,
                       parseMeta: string -> Option<Parsed>, toInt: string -> int)
    requires IndexValid(ld.ix)
    ensures IndexValid(AfterLine(ld, raw, parse, parseMeta, toInt).ix)
  {
    var k := Classify(raw, parse, parseMeta);
    if k.Record? {
      RecordLineValid(ld.ix, k.p);
    } else if k.MetaRecord? {
      MetaLineValid(ld.ix, k.p);
    }
  }

  /** The loop of `loadSignatures` over the lines read so far. */
  function AfterLines(ld: Loader, lines: seq<string>, parse: string -> Option<Parsed>,
                      parseMeta: string -> Option<Parsed>, toInt: string -> int): (r: Loader)
    requires Wf(ld.ix)
    ensures Wf(r.ix)
  {
    if lines == [] then ld
    else AfterLine(AfterLines(ld, lines[..|lines| - 1], parse, parseMeta, toInt),
                   lines[|lines| - 1], parse, parseMeta, toInt)
  }

  /** Loading keeps the index valid, whatever the lines say. */
  lemma {:induction false} AfterLinesValid(ld: Loader, lines: seq<string>, parse: string -> Option<Parsed>,
                                           parseMeta: string -> Option<Parsed>, toInt: string -> int)
    requires IndexValid(ld.ix)
    ensures IndexValid(AfterLines(ld, lines, parse, parseMeta, toInt).ix)
  {
    if lines != [] {
      AfterLinesValid(ld, lines[..|lines| - 1], parse, parseMeta, toInt);
      AfterLineValid(AfterLines(ld, lines[..|lines| - 1], parse, parseMeta, toInt),
                     lines[|lines| - 1], parse, parseMeta, toInt);
    }
  }

  /** Whether a line parses in either record form. */
  predicate IsRecordLine(raw: string, parse: string -> Option<Parsed>, parseMeta: string -> Option<Parsed>) {
    var line := Trim(raw);
    line != "" && !StartsWith(line, ";") && (parse(line).Some? || parseMeta(line).Some?)
  }

  /** The number of lines that parse in either record form. */
  function RecordCount(lines: seq<string>, parse: string -> Option<Parsed>,
                       parseMeta: string -> Option<Parsed>): nat
  {
    if lines == [] then 0
    else RecordCount(lines[..|lines| - 1], parse, parseMeta)
         + (if IsRecordLine(lines[|lines| - 1], parse, parseMeta) then 1 else 0)
  }

  lemma AfterLineCount(ld: Loader, raw: string, parse: string -> Option<Parsed>,
                       parseMeta: string -> Option<Parsed>, toInt: string -> int)
    requires Wf(ld.ix)
    ensures AfterLine(ld, raw, parse, parseMeta, toInt).count
            == ld.count + (if IsRecordLine(raw, parse, parseMeta) then 1 else 0)
  {
  }

  /** `allSignatureCount` grows by one for each line that parses in either record form,
      and by nothing else. */
  lemma {:induction false} CountIsRecordLines(ld: Loader, lines: seq<string>, parse: string -> Option<Parsed>,
                                              parseMeta: string -> Option<Parsed>, toInt: string -> int)
    requires Wf(ld.ix)
    ensures AfterLines(ld, lines, parse, parseMeta, toInt).count == ld.count + RecordCount(lines, parse, parseMeta)
  {
    if lines != [] {
      var init := lines[..|lines| - 1];
      CountIsRecordLines(ld, init, parse, parseMeta, toInt);
      AfterLineCount(AfterLines(ld, init, parse, parseMeta, toInt), lines[|lines| - 1], parse, parseMeta, toInt);
    }
  }

  /** The value of the last metadata line carrying `marker`, if any. */
  function LastMarker(lines: seq<string>, marker: string, parse: string -> Option<Parsed>,
                      parseMeta: string -> Option<Parsed>): Option<string>
  {
    if lines == [] then None
    else
      var k := Classify(lines[|lines| - 1], parse, parseMeta);
      if k.Metadata? && CheckMarker(k.rest, marker).Some? then CheckMarker(k.rest, marker)
      else LastMarker(lines[..|lines| - 1], marker, parse, parseMeta)
  }

  function Override<T>(old_: Option<T>, last: Option<T>): Option<T> {
    if last.Some? then last else old_
  }

  lemma AfterLineInfo(ld: Loader, raw: string, parse: string -> Option<Parsed>,
                      parseMeta: string -> Option<Parsed>, toInt: string -> int)
    requires Wf(ld.ix)
    ensures var k := Classify(raw, parse, parseMeta);
      AfterLine(ld, raw, parse, parseMeta, toInt).info
        == if k.Metadata? then ApplyMarkers(ld.info, k.rest, toInt) else ld.info
  {
  }

  /** A later metadata marker overwrites an earlier one: the library info after the loop
      holds, per marker, the value of the last line that carried it. */
  lemma {:induction false} LaterMarkerWins(ld: Loader, lines: seq<string>, parse: string -> Option<Parsed>,
                                           parseMeta: string -> Option<Parsed>, toInt: string -> int)
    requires Wf(ld.ix)
    ensures var info := AfterLines(ld, lines, parse, parseMeta, toInt).info;
      var v := LastMarker(lines, "version", parse, parseMeta);
      && info.version == (if v.Some? then Some(toInt(v.value)) else ld.info.version)
      && info.libName == Override(ld.info.libName, LastMarker(lines, "libname", parse, parseMeta))
      && info.author == Override(ld.info.author, LastMarker(lines, "author", parse, parseMeta))
  {
    if lines != [] {
      var init := lines[..|lines| - 1];
      LaterMarkerWins(ld, init, parse, parseMeta, toInt);
      AfterLineInfo(AfterLines(ld, init, parse, parseMeta, toInt), lines[|lines| - 1], parse, parseMeta, toInt);
    }
  }

  /** The outcome of `loadSignatures`: the exception of a second call, the `false` of an
      unreadable file, or the `true` of a completed load. */
  datatype LoadOutcome = AlreadyLoaded | Unreadable | Loaded

  class SignatureFile {
    var records: seq<SigRecord>
    var allTightSignatures: Multimap
    var allLooseSignatures: Multimap
    var allSignaturesByClassname: Multimap
    var allMetaByClassname: Multimap
    var libraryInfos: Option<LibraryInfo>
    var allSignatureCount: nat

    function State(): Index
      reads this`records, this`allTightSignatures, this`allLooseSignatures,
            this`allSignaturesByClassname, this`allMetaByClassname
    {
      Index(records, allTightSignatures, allLooseSignatures, allSignaturesByClassname, allMetaByClassname)
    }

    ghost predicate Valid()
      reads this`records, this`allTightSignatures, this`allLooseSignatures,
            this`allSignaturesByClassname, this`allMetaByClassname
    {
      IndexValid(State())
    }

    constructor ()
      ensures Valid() && State() == EmptyIndex
      ensures libraryInfos == None && allSignatureCount == 0
    {
      records := [];
      allTightSignatures, allLooseSignatures := map[], map[];
      allSignaturesByClassname, allMetaByClassname := map[], map[];
      libraryInfos := None;
      allSignatureCount := 0;
    }

    /** The search loop shared by both merge steps: the first signature of `list` that is
        `equalsMethodSig`-equal to `key`. */
    method FindSharedSignature(list: seq<SigId>, key: SigKey) returns (found: Option<SigId>)
      requires forall i :: 0 <= i < |list| ==> list[i] < |records|
      ensures found == FindEqual(records, list, key)
      ensures found.Some? ==> found.value in list && records[found.value].key == key
      ensures found.None? ==> forall i :: 0 <= i < |list| ==> records[list[i]].key != key
    {
      var i := 0;
      while i < |list|
        invariant 0 <= i <= |list|
        invariant FindEqual(records, list, key) == FindEqual(records, list[i..], key)
      {
        if records[list[i]].key == key {
          return Some(list[i]);
        }
        assert list[i..][1..] == list[i + 1..];
        i := i + 1;
      }
      return None;
    }

    /** Replaces the arena and the three lists `storeMethodHash` writes. */
    method SetLists(next: Index)
      requires next.meta == allMetaByClassname
      modifies this`records, this`allTightSignatures, this`allLooseSignatures, this`allSignaturesByClassname
      ensures State() == next
    {
      records, allTightSignatures, allLooseSignatures, allSignaturesByClassname :=
        next.records, next.tight, next.loose, next.byClass;
    }

    /** `storeMethodHash` for the freshly parsed signature `id`. */
    method StoreMethodHash(id: SigId)
      requires Valid() && id < |records| && !InClassIndex(records, allSignaturesByClassname, id)
      modifies this`records, this`allTightSignatures, this`allLooseSignatures, this`allSignaturesByClassname
      ensures State() == AfterStoreMethodHash(old(State()), id)
      ensures Valid()
    {
      var ix := State();
      StoreMethodHashValid(ix, id);
      var sig := ix.records[id];
      var list := Get(ix.byClass, sig.key.cname);
      assert forall i :: 0 <= i < |list| ==> list[i] < |records|;
      var found := FindSharedSignature(list, sig.key);
      StoreMethodHashSteps(ix, id, found);
      // the representative: the signature already listed, or `id` itself
      var rep := if found.Some? then found.value else id;
      // a merge fills the listed signature's revision; only a new identity joins the class list
      var newTight := found.None? || rep !in Get(ix.tight, sig.own.tight);
      var newLoose := found.None? || rep !in Get(ix.loose, sig.own.loose);
      var next := Index(if found.Some? then AddRevision(ix.records, rep, sig.own) else ix.records,
                        if newTight then SaveValue(ix.tight, sig.own.tight, rep) else ix.tight,
                        if newLoose then SaveValue(ix.loose, sig.own.loose, rep) else ix.loose,
                        if found.None? then SaveValue(ix.byClass, sig.key.cname, rep) else ix.byClass,
                        ix.meta);
      SetLists(next);
    }

    /** The meta-list step of the loop (lines 94-105); an absent list reads as empty. */
    method StoreMeta(id: SigId)
      requires Valid() && id < |records|
      modifies this`records, this`allMetaByClassname
      ensures State() == AfterStoreMeta(old(State()), id)
      ensures Valid()
    {
      StoreMetaValid(State(), id);
      var ml := records[id];
      var list := Get(allMetaByClassname, ml.key.cname);
      assert forall i :: 0 <= i < |list| ==> list[i] < |records|;
      var found := FindSharedSignature(list, ml.key);
      if found.Some? {
        records := AddRevision(records, found.value, ml.own);
      } else {
        allMetaByClassname := SaveValue(allMetaByClassname, ml.key.cname, id);
      }
    }

    /** The body of the line loop of `loadSignatures` for one line; `info` is the library
        information gathered so far. */
    method ReadLine(raw: string, parse: string -> Option<Parsed>, parseMeta: string -> Option<Parsed>,
                    toInt: string -> int, info: LibraryInfo) returns (info': LibraryInfo)
      requires Valid()
      modifies this`records, this`allTightSignatures, this`allLooseSignatures,
               this`allSignaturesByClassname, this`allMetaByClassname, this`allSignatureCount
      ensures Valid()
      ensures Loader(State(), allSignatureCount, info')
              == AfterLine(Loader(old(State()), old(allSignatureCount), info), raw, parse, parseMeta, toInt)
    {
      info' := info;
      ghost var ld := Loader(State(), allSignatureCount, info);
      var k := Classify(raw, parse, parseMeta);
      if k.Metadata? {
        info' := ApplyMarkers(info, k.rest, toInt);
      } else if k.Record? || k.MetaRecord? {
        RecordLine(ld, raw, parse, parseMeta, toInt);
        StoreRecord(k.p, k.MetaRecord?);
      }
    }

    /** A line that parsed: allocate its signature, file a second-form one in the meta
        list, store it under its hashes and class name, and count it. */
    method StoreRecord(p: Parsed, isMeta: bool)
      requires Valid()
      modifies this`records, this`allTightSignatures, this`allLooseSignatures,
               this`allSignaturesByClassname, this`allMetaByClassname, this`allSignatureCount
      ensures Valid()
      ensures allSignatureCount == old(allSignatureCount) + 1
      ensures var id := |old(records)|;
        var ix1 := Alloc(old(State()), p);
        State() == AfterStoreMethodHash(if isMeta then AfterStoreMeta(ix1, id) else ix1, id)
    {
      allSignatureCount := allSignatureCount + 1;
      var id := |records|;
      NewRecordValid(State(), p, isMeta);
      records := records + [SigRecord(p.key, p.own, [])];
      if isMeta {
        StoreMeta(id);
      }
      StoreMethodHash(id);
    }

    /** The loop of `loadSignatures` over the lines of the file. */
    method ReadLines(ls: seq<string>, parse: string -> Option<Parsed>, parseMeta: string -> Option<Parsed>,
                     toInt: string -> int) returns (info: LibraryInfo)
      requires Valid()
      modifies this`records, this`allTightSignatures, this`allLooseSignatures,
               this`allSignaturesByClassname, this`allMetaByClassname, this`allSignatureCount
      ensures Valid()
      ensures Loader(State(), allSignatureCount, info)
              == AfterLines(Loader(old(State()), old(allSignatureCount), NoInfo), ls, parse, parseMeta, toInt)
    {
      ghost var start := Loader(State(), allSignatureCount, NoInfo);
      info := NoInfo;
      var n := 0;
      while n < |ls|
        invariant 0 <= n <= |ls|
        invariant Valid()
        invariant Loader(State(), allSignatureCount, info) == AfterLines(start, ls[..n], parse, parseMeta, toInt)
      {
        assert ls[..n + 1][..n] == ls[..n];
        info := ReadLine(ls[n], parse, parseMeta, toInt, info);
        n := n + 1;
      }
      assert ls[..|ls|] == ls;
    }

    /** `loadSignatures`, with the file's lines (null when unreadable), the two record
        parsers and `Conversion.stringToInt` given as inputs. */
    method LoadSignatures(lines: Option<seq<string>>, parse: string -> Option<Parsed>,
                          parseMeta: string -> Option<Parsed>, toInt: string -> int)
      returns (r: LoadOutcome)
      requires Valid()
      modifies this
      ensures Valid()
      ensures old(libraryInfos).Some? ==> r == AlreadyLoaded
      ensures old(libraryInfos).None? && lines.None? ==> r == Unreadable
      ensures r == Loaded <==> old(libraryInfos).None? && lines.Some?
      ensures r != Loaded ==> State() == old(State()) && libraryInfos == old(libraryInfos)
                               && allSignatureCount == old(allSignatureCount)
      ensures r == Loaded ==>
        libraryInfos.Some? &&
        Loader(State(), allSignatureCount, libraryInfos.value)
          == AfterLines(Loader(old(State()), old(allSignatureCount), NoInfo), lines.value, parse, parseMeta, toInt)
    {
      if libraryInfos.Some? {
        return AlreadyLoaded;
      }
      if lines.None? {
        return Unreadable;
      }
      var info := ReadLines(lines.value, parse, parseMeta, toInt);
      libraryInfos := Some(info);
      return Loaded;
    }

    /** `hasSignaturesForClassname` */
    function HasSignaturesForClassname(className: string): (r: bool)
      reads this
      requires Valid()
      ensures r <==> Get(allSignaturesByClassname, className) != []
    {
      className in allSignaturesByClassname
    }

    /** `getSignaturesForClassname`: with `exactName` a copy of the class's own list (empty
        for an unknown class); otherwise the lists of every class name starting with
        `className`, concatenated in the map's iteration order, which is unspecified. */
    method GetSignaturesForClassname(className: string, exactName: bool) returns (r: seq<SigId>)
      ensures exactName ==> r == Get(allSignaturesByClassname, className)
      ensures !exactName ==> exists order :: Enumerates(order, allSignaturesByClassname, className)
                                             && r == Concat(allSignaturesByClassname, order)
    {
      if exactName {
        return Get(allSignaturesByClassname, className);
      }
      r := [];
      var keys := allSignaturesByClassname.Keys;
      ghost var order: seq<string> := [];
      while keys != {}
        invariant keys <= allSignaturesByClassname.Keys
        invariant forall k :: k in order ==> k in allSignaturesByClassname && StartsWith(k, className) && k !in keys
        invariant forall k :: k in allSignaturesByClassname && StartsWith(k, className) ==> k in order || k in keys
        invariant forall i, j :: 0 <= i < j < |order| ==> order[i] != order[j]
        invariant r == Concat(allSignaturesByClassname, order)
        decreases keys
      {
        var k :| k in keys;
        keys := keys - {k};
        if StartsWith(k, className) {
          r := r + allSignaturesByClassname[k];
          order := order + [k];
          assert order[..|order| - 1] == order[..|order| - 1];
        }
      }
      assert Enumerates(order, allSignaturesByClassname, className);
    }

    /** `getParent`: the class's meta signatures named `<parent>`, in list order. */
    function GetParent(className: string): (r: seq<SigId>)
      reads this
      requires Valid()
      ensures forall i :: 0 <= i < |r| ==> r[i] < |records| && records[r[i]].key.mname == "<parent>"
      ensures forall id :: id in r <==> id in Get(allMetaByClassname, className) && records[id].key.mname == "<parent>"
      ensures className !in allMetaByClassname ==> r == []
    {
      var list := Get(allMetaByClassname, className);
      assert forall i :: 0 <= i < |list| ==> list[i] < |records|;
      ParentsOf(records, list)
    }
  }

  /** `order` lists, once each, exactly the keys of `m` starting with `prefix`. */
  ghost predicate Enumerates(order: seq<string>, m: Multimap, prefix: string) {
    && (forall k :: k in order <==> k in m && StartsWith(k, prefix))
    && (forall i, j :: 0 <= i < j < |order| ==> order[i] != order[j])
  }

  /** The lists of `keys`, one after the other. */
  function Concat(m: Multimap, keys: seq<string>): seq<SigId> {
    if keys == [] then [] else Concat(m, keys[..|keys| - 1]) + Get(m, keys[|keys| - 1])
  }

  /** The signatures of `ids` whose method name is `<parent>`, in order. */
  function ParentsOf(records: seq<SigRecord>, ids: seq<SigId>): (r: seq<SigId>)
    requires forall i :: 0 <= i < |ids| ==> ids[i] < |records|
    ensures forall i :: 0 <= i < |r| ==> r[i] < |records| && records[r[i]].key.mname == "<parent>"
    ensures forall id :: id in r <==> id in ids && records[id].key.mname == "<parent>"
  {
    if ids == [] then []
    else (if records[ids[0]].key.mname == "<parent>" then [ids[0]] else []) + ParentsOf(records, ids[1..])
  }

  /** Every signature that the exact query returns, the prefix query returns too, as
      often: the class's own list is part of the concatenation. */
  lemma {:induction false} ExactIncludedInPrefix(m: Multimap, name: string, order: seq<string>)
    requires Enumerates(order, m, name)
    ensures multiset(Get(m, name)) <= multiset(Concat(m, order))
  {
    if name in m {
      assert StartsWith(name, name);
      assert name in order;
      ConcatContains(m, order, name);
    }
  }

  lemma {:induction false} ConcatContains(m: Multimap, keys: seq<string>, k: string)
    requires k in keys
    ensures multiset(Get(m, k)) <= multiset(Concat(m, keys))
  {
    var last := keys[|keys| - 1];
    var init := keys[..|keys| - 1];
    assert multiset(Concat(m, keys)) == multiset(Concat(m, init)) + multiset(Get(m, last));
    if last != k {
      assert k in init;
      ConcatContains(m, init, k);
    }
  }

  // ---------------------------------------------------------------------------
  // populate: which files hold which tight hash, loose hash and class name

  /** What `MethodSignature.parseNative` and its three getters give for a line; None stands for null. */
  datatype NativeFields = NativeFields(tight: Option<string>, loose: Option<string>, className: Option<string>)

  type FileSets = map<string, set<string>>

  /** Record `path` under `key` unless the key is null or empty. */
  function AddFile(m: FileSets, key: Option<string>, path: string): FileSets {
    if key.Some? && key.value != "" then m[key.value := (if key.value in m then m[key.value] else {}) + {path}]
    else m
  }

  /** The three caller-owned maps `populate` fills in place. */
  class HashcodeSets {
    var allTightHashcodes: FileSets
    var allLooseHashcodes: FileSets
    var allClasses: FileSets

    constructor ()
      ensures allTightHashcodes == map[] && allLooseHashcodes == map[] && allClasses == map[]
    {
      allTightHashcodes, allLooseHashcodes, allClasses := map[], map[], map[];
    }
  }

  /** The fields a line contributes, if it is a signature line that `parseNative` accepts. */
  function LineFields(raw: string, isSignatureLine: string -> bool,
                      parseNative: string -> Option<NativeFields>): Option<NativeFields>
  {
    var line := Trim(raw);
    if !isSignatureLine(line) then None else parseNative(line)
  }

  /** The map after recording `path` for each line's key, chosen by `pick`. */
  function Populated(m: FileSets, lines: seq<string>, path: string, isSignatureLine: string -> bool,
                     parseNative: string -> Option<NativeFields>, pick: NativeFields -> Option<string>): FileSets
  {
    if lines == [] then m
    else
      var m' := Populated(m, lines[..|lines| - 1], path, isSignatureLine, parseNative, pick);
      var f := LineFields(lines[|lines| - 1], isSignatureLine, parseNative);
      if f.Some? then AddFile(m', pick(f.value), path) else m'
  }

  function PickTight(f: NativeFields): Option<string> { f.tight }
  function PickLoose(f: NativeFields): Option<string> { f.loose }
  function PickClass(f: NativeFields): Option<string> { f.className }

  /** `populate` only ever adds `path`: it never indexes an empty key, adds nothing but
      `path` to any set, removes nothing, and a key given by some line ends up holding `path`. */
  lemma {:induction false} PopulateAddsOnlyPath(m: FileSets, lines: seq<string>, path: string,
                                                isSignatureLine: string -> bool,
                                                parseNative: string -> Option<NativeFields>,
                                                pick: NativeFields -> Option<string>)
    ensures var r := Populated(m, lines, path, isSignatureLine, parseNative, pick);
      && m.Keys <= r.Keys
      && (forall k :: k in r && k !in m ==> k != "")
      && (forall k :: k in m ==> m[k] <= r[k] && r[k] - m[k] <= {path})
      && (forall k :: k in r && k !in m ==> r[k] == {path})
      && (forall i :: 0 <= i < |lines| ==>
            var f := LineFields(lines[i], isSignatureLine, parseNative);
            f.Some? && pick(f.value).Some? && pick(f.value).value != "" ==>
              pick(f.value).value in r && path in r[pick(f.value).value])
  {
    if lines != [] {
      var init := lines[..|lines| - 1];
      PopulateAddsOnlyPath(m, init, path, isSignatureLine, parseNative, pick);
      var r := Populated(m, lines, path, isSignatureLine, parseNative, pick);
      var m' := Populated(m, init, path, isSignatureLine, parseNative, pick);
      assert forall k :: k in m' ==> k in r && m'[k] <= r[k];
      forall i | 0 <= i < |lines|
        ensures var f := LineFields(lines[i], isSignatureLine, parseNative);
          f.Some? && pick(f.value).Some? && pick(f.value).value != "" ==>
            pick(f.value).value in r && path in r[pick(f.value).value]
      {
        if i < |lines| - 1 { assert lines[i] == init[i]; }
      }
    }
  }

  /** `populate(sigFile, ...)`: false, with nothing changed, when the file cannot be read. */
  method Populate(sets: HashcodeSets, path: string, lines: Option<seq<string>>,
                  isSignatureLine: string -> bool, parseNative: string -> Option<NativeFields>)
    returns (ok: bool)
    modifies sets
    ensures ok <==> lines.Some?
    ensures !ok ==> sets.allTightHashcodes == old(sets.allTightHashcodes)
                    && sets.allLooseHashcodes == old(sets.allLooseHashcodes)
                    && sets.allClasses == old(sets.allClasses)
    ensures ok ==>
      && sets.allTightHashcodes == Populated(old(sets.allTightHashcodes), lines.value, path, isSignatureLine, parseNative, PickTight)
      && sets.allLooseHashcodes == Populated(old(sets.allLooseHashcodes), lines.value, path, isSignatureLine, parseNative, PickLoose)
      && sets.allClasses == Populated(old(sets.allClasses), lines.value, path, isSignatureLine, parseNative, PickClass)
  {
    if lines.None? {
      return false;
    }
    var ls := lines.value;
    var n := 0;
    while n < |ls|
      invariant 0 <= n <= |ls|
      invariant sets.allTightHashcodes == Populated(old(sets.allTightHashcodes), ls[..n], path, isSignatureLine, parseNative, PickTight)
      invariant sets.allLooseHashcodes == Populated(old(sets.allLooseHashcodes), ls[..n], path, isSignatureLine, parseNative, PickLoose)
      invariant sets.allClasses == Populated(old(sets.allClasses), ls[..n], path, isSignatureLine, parseNative, PickClass)
    {
      assert ls[..n + 1][..n] == ls[..n];
      var line := Trim(ls[n]);
      if isSignatureLine(line) {
        var sub := parseNative(line);
        if sub.Some? {
          sets.allTightHashcodes := AddFile(sets.allTightHashcodes, sub.value.tight, path);
          sets.allLooseHashcodes := AddFile(sets.allLooseHashcodes, sub.value.loose, path);
          sets.allClasses := AddFile(sets.allClasses, sub.value.className, path);
        }
      }
      n := n + 1;
    }
    assert ls[..|ls|] == ls;
    return true;
  }
}
