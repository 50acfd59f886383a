/** The facts the matcher reads from the analysed binary, the library signatures and
    candidate matches it handles, and the collaborators it calls but which are not part of
    this model (MatchingSearch, FileMatches, ContextMatches, DexUtilLocal, DatabaseReference,
    SignatureHandler), each reduced to what its call sites in DatabaseMatcher2.java see. */
module Dex {
  import opened Wrappers

  type ClassId = nat
  type MethodId = nat

  /** A method of the binary. `instructions` is the size of its code item, `None` when it
      has no method data or no code item. */
  datatype DexMethod = DexMethod(name: string, signature: string, internal: bool,
                                 instructions: Option<nat>, prototype: string, shorty: string)

  /** What an id that names no method of the binary reads as. */
  const NoMethod := DexMethod("", "", false, None, "", "")

  /** A class of the binary: its type signature (`Lcom/a/B$C;`) and its methods in order. */
  datatype DexClass = DexClass(signature: string, methods: seq<MethodId>)

  /** The binary: classes and methods by index, the class lookup by signature
      (`getClass(String)`), and the order of `getClasses()`. */
  datatype Binary = Binary(classes: map<ClassId, DexClass>, methods: map<MethodId, DexMethod>,
                           byName: map<string, ClassId>, order: seq<ClassId>)
  {
    ghost predicate Valid() {
      && (forall n :: n in byName ==> byName[n] in classes && classes[byName[n]].signature == n)
      && (forall c :: c in classes ==> classes[c].signature in byName && byName[classes[c].signature] == c)
      && (forall i :: 0 <= i < |order| ==> order[i] in classes)
    }

    function Method(id: MethodId): DexMethod {
      if id in methods then methods[id] else NoMethod
    }

    /** `getClass(name)`: the class with that signature, if any. */
    function ClassNamed(name: string): (r: Option<ClassId>)
      requires Valid()
      ensures r.Some? ==> r.value in classes && classes[r.value].signature == name
    {
      if name in byName then Some(byName[name]) else None
    }

    function MethodsOf(c: ClassId): seq<MethodId> {
      if c in classes then classes[c].methods else []
    }
  }

  /** A library method signature as the matcher sees it (MethodSignature after loading):
      its identity, its version tags (`None` for a null array), its recorded caller and the
      caller counts it expects. */
  datatype Sig = Sig(cname: string, mname: string, shorty: string, prototype: string,
                     versions: Option<seq<string>>, caller: string, targetCaller: map<string, int>)

  /** InnerMatch: one candidate library class of one signature file for a binary class. */
  datatype Candidate = Candidate(file: string, className: string, classPathMethod: map<MethodId, Sig>,
                                 doNotRename: set<MethodId>)

  /** Calls the matcher makes to its FileMatches, in order. */
  datatype FileEvent =
    | AddMatchedClassFiles(cls: ClassId, file: string)
    | RemoveClassFiles(cls: ClassId)
    | AddVersions(file: string, sigs: seq<Sig>)

  /** Calls the matcher makes to its ContextMatches, in order. */
  datatype CtxEvent =
    | SaveClassMatch(oldClass: string, newClass: string, matchedName: string)
    | SaveParamMatching(dexPrototype: string, libPrototype: string, className: string, methodName: string)
    | SaveMethodMatch(mid: MethodId, methodName: string)
    | SaveCallerMatching(expected: string, current: string)
    | SaveCallerMatchings(expectedCallers: map<string, int>, calls: map<string, int>)
    | SetInvalidClass(className: string)
    | SetInvalidMethod(mid: MethodId)

  /** What `MatchingSearch` is asked for one class: the restriction to an inner-class prefix
      of one file (`processInnerClass`) when there is one, and the state it reads. */
  datatype SearchQuery = SearchQuery(cls: ClassId, inner: Option<(string, string)>,
                                     matchedClasses: map<ClassId, string>,
                                     matchedMethods: map<MethodId, string>,
                                     fileLog: seq<FileEvent>, firstRound: bool, unique: bool)

  /** The collaborators, as functions of what they are given. FileMatches and ContextMatches
      answer from the log of calls made to them so far. */
  datatype Oracles = Oracles(
    // DexUtilLocal.isInnerClass and getParentClass
    isInner: string -> bool,
    parentClass: string -> Option<ClassId>,
    // MatchingSearch: the candidates grouped per file after processInnerClass/processClass,
    // validateVersions and the small-method search (lines 248-278)
    search: SearchQuery -> seq<seq<Candidate>>,
    mergePerClass: seq<Sig> -> seq<Sig>,
    findByHash: (string, string, string, string, string, seq<Sig>, MethodId) -> Option<Sig>,
    sigsForMethod: (string, string, MethodId) -> seq<Sig>,
    findName: (seq<Sig>, string, string, string, seq<Sig>, MethodId) -> Option<Sig>,
    findMatched: (string, string, MethodId, string) -> Option<Sig>,
    // SignatureFile queries of one file: by exact class name, and by class-name prefix
    exactQuery: (string, string) -> seq<Sig>,
    prefixQuery: (string, string) -> seq<Sig>,
    // DatabaseReference.getFilesContainingClass
    filesContainingClass: string -> Option<seq<string>>,
    // DexHashcodeList.getTightHashcode
    tightHash: MethodId -> Option<string>,
    // FileMatches
    fileFromClass: (seq<FileEvent>, ClassId) -> Option<string>,
    matchedClassFile: (seq<FileEvent>, ClassId, string) -> Option<string>,
    usedSigFiles: seq<FileEvent> -> set<string>,
    addVersions: (seq<FileEvent>, string, seq<Sig>) -> bool,
    parentVersions: (seq<FileEvent>, ClassId, map<MethodId, Sig>) -> Option<set<string>>,
    filterMatching: (seq<FileEvent>, string, seq<Sig>) -> seq<Sig>,
    // ContextMatches
    ctxClasses: seq<CtxEvent> -> map<string, string>,
    ctxMethods: seq<CtxEvent> -> map<MethodId, string>,
    ctxValid: (seq<CtxEvent>, string) -> bool,
    // SignatureHandler.loadAllCallerLists: callee -> (caller -> call count)
    callerLists: map<MethodId, map<MethodId, int>>
  )
}
