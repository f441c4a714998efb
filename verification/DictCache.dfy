/** The dictionary lookup of calculate: a search through the dictionary of the file and the shared
    dictionary, remembered in several caches.
*/
module DictCache {
  import opened Common

  type Id = string

  /** A dictionary record; field 16 is where a cached record remembers that it came from dict.voc. */
  datatype Rec = Rec(kind: string, body: string, field16: bool)

  type Dictionary = map<Id, Rec>

  /** The dictionaries by name, and the shared one. */
  datatype Files = Files(dicts: map<string, Dictionary>, voc: Dictionary)

  function UpperChar(c: char): char {
    if 'a' <= c <= 'z' then (c as int - 32) as char else c
  }

  function Lower(s: string): string {
    seq(|s|, i requires 0 <= i < |s| => LowerChar(s[i]))
  }

  function Upper(s: string): string {
    seq(|s|, i requires 0 <= i < |s| => UpperChar(s[i]))
  }

  function OtherCase(id: Id): Id {
    if Lower(id) == id then Upper(id) else Lower(id)
  }

  function InFile(files: Files, dict: string, id: Id): Option<Rec> {
    if dict in files.dicts && id in files.dicts[dict] then Some(files.dicts[dict][id]) else None
  }

  function InVoc(files: Files, id: Id): Option<Rec> {
    if id in files.voc then Some(files.voc[id]) else None
  }

  /** The search without caches; in the result, field 16 says whether the record is the shared one. */
  function Find(files: Files, dict: string, id: Id): Option<Rec> {
    if InFile(files, dict, id).Some? then Some(InFile(files, dict, id).value.(field16 := false))
    else if InFile(files, dict, OtherCase(id)).Some? then Some(InFile(files, dict, OtherCase(id)).value.(field16 := false))
    else if InVoc(files, id).Some? then Some(InVoc(files, id).value.(field16 := true))
    else if InVoc(files, OtherCase(id)).Some? then Some(InVoc(files, OtherCase(id)).value.(field16 := true))
    else None
  }

  // ----- with caches -----

  /** A function in a library. */
  datatype Function = Function(lib: string, func: string)

  function LibName(dict: string): string {
    var l := Lower(dict);
    seq(|l|, i requires 0 <= i < |l| => if l[i] == '.' then '_' else l[i])
  }

  function FunctionOf(dict: string, id: Id, inVoc: bool): Function {
    Function(if inVoc then "dict_voc" else LibName(dict), Lower(id))
  }

  function CacheKey(f: Function): string {
    f.func + "_" + f.lib
  }

  /** What a request is answered with: the record that is used, and the function if the record is of
      the kind that calls one. */
  datatype Answer = Missing | Answer(rec: Rec, fn: Option<Function>)

  /** A record without its field 16, which only serves to choose the function. */
  function Bare(rec: Rec): Rec {
    rec.(field16 := false)
  }

  /** What a found record is used for. */
  function Use(dict: string, id: Id, found: Option<Rec>): Answer {
    match found
    case None => Missing
    case Some(rec) => Answer(Bare(rec), if rec.kind == "S" then Some(FunctionOf(dict, id, rec.field16)) else None)
  }

  function PlainAnswer(files: Files, dict: string, id: Id): Answer {
    Use(dict, id, Find(files, dict, id))
  }

  /** What is seen of an answer: the record without field 16, and the function. */
  function Seen(answer: Answer): Answer {
    match answer case Missing => Missing case Answer(rec, fn) => Answer(Bare(rec), fn)
  }

  /** Whether field 16 of a record decides between two libraries. */
  predicate Decides(dict: string, rec: Rec) {
    rec.kind == "S" && LibName(dict) != "dict_voc"
  }

  type Request = (string, Id)

  /** The last request and its record, the record cache, the functions by cache key, and the function
      last used. */
  datatype State = State(
    last: Option<Request>, rec: Rec, cache: map<Request, Rec>, functions: map<string, Function>, callable: Option<Function>)

  const START := State(None, Rec("", "", false), map[], map[], None)

  /** Reads a record through the record cache. */
  function ReadC(files: Files, cache: map<Request, Rec>, dict: string, id: Id): Option<Rec> {
    if (dict, id) in cache then Some(cache[(dict, id)]) else InFile(files, dict, id)
  }

  /** The record that the search through the caches ends with, and the record cache after it. */
  function Search(files: Files, cache: map<Request, Rec>, dict: string, id: Id): (Option<Rec>, map<Request, Rec>) {
    var exact := ReadC(files, cache, dict, id);
    var other := ReadC(files, cache, dict, OtherCase(id));
    if exact.Some? then (exact, cache)
    else
      var found :=
        if other.Some? then Some(other.value.(field16 := false))
        else if InVoc(files, id).Some? then Some(InVoc(files, id).value.(field16 := true))
        else if InVoc(files, OtherCase(id)).Some? then Some(InVoc(files, OtherCase(id)).value.(field16 := true))
        else None;
      (found, if found.Some? then cache[(dict, id) := found.value] else cache)
  }

  /** One request: the answer and the next state. */
  function Request1(files: Files, st: State, dict: string, id: Id): (Answer, State) {
    if st.last == Some((dict, id)) then
      (Answer(st.rec, if st.rec.kind == "S" then st.callable else None), st)
    else
      var (found, cache) := Search(files, st.cache, dict, id);
      match found
      case None => (Missing, st.(last := None))
      case Some(rec) =>
        var st' := st.(last := Some((dict, id)), rec := rec, cache := cache);
        if rec.kind != "S" then (Answer(rec, None), st')
        else
          var f := FunctionOf(dict, id, rec.field16);
          var functions := if CacheKey(f) in st.functions then st.functions else st.functions[CacheKey(f) := f];
          var used := Some(functions[CacheKey(f)]);
          (Answer(rec, used), st'.(functions := functions, callable := used))
  }

  class ExoProgram {
    const files: Files
    var cachedDictId: Option<Request>
    var cachedDictRec: Rec
    var recordCache: map<Request, Rec>
    var cachedDictFunctions: map<string, Function>
    var dictCallable: Option<Function>

    constructor (dictionaries: Files)
      ensures files == dictionaries && Contents() == START
    {
      files := dictionaries;
      cachedDictId, cachedDictRec := START.last, START.rec;
      recordCache, cachedDictFunctions, dictCallable := START.cache, START.functions, START.callable;
    }

    function Contents(): State
      reads this
    {
      State(cachedDictId, cachedDictRec, recordCache, cachedDictFunctions, dictCallable)
    }

    /** Finds the record and the function that calculate uses for a dictionary item. */
    method Calculate(dict: string, dictId: Id) returns (answer: Answer)
      modifies this
      ensures (answer, Contents()) == Request1(files, old(Contents()), dict, dictId)
    {
      var newLibFunc := false;
      if cachedDictId != Some((dict, dictId)) {
        cachedDictId := None;
        newLibFunc := true;
        var rec := ReadC(files, recordCache, dict, dictId);
        if rec.None? {
          var inDictVoc := false;
          var otherCase := OtherCase(dictId);
          rec := ReadC(files, recordCache, dict, otherCase);
          if rec.None? {
            rec := InVoc(files, dictId);
            if rec.None? {
              rec := InVoc(files, otherCase);
              if rec.None? {
                return Missing;
              }
            }
            inDictVoc := true;
          }
          rec := Some(rec.value.(field16 := inDictVoc));
          recordCache := recordCache[(dict, dictId) := rec.value];
        }
        cachedDictRec := rec.value;
        cachedDictId := Some((dict, dictId));
      }
      if cachedDictRec.kind != "S" {
        return Answer(cachedDictRec, None);
      }
      if newLibFunc {
        var f := FunctionOf(dict, dictId, cachedDictRec.field16);
        if CacheKey(f) !in cachedDictFunctions {
          cachedDictFunctions := cachedDictFunctions[CacheKey(f) := f];
        }
        dictCallable := Some(cachedDictFunctions[CacheKey(f)]);
      }
      answer := Answer(cachedDictRec, dictCallable);
    }
  }

  // ----- histories of requests -----

  function After(files: Files, hist: seq<Request>, n: nat): State
    requires n <= |hist|
  {
    if n == 0 then START else Request1(files, After(files, hist, n - 1), hist[n - 1].0, hist[n - 1].1).1
  }

  function AnswerTo(files: Files, hist: seq<Request>, n: nat): Answer
    requires n < |hist|
  {
    Request1(files, After(files, hist, n), hist[n].0, hist[n].1).0
  }

  /** Whether request n is answered as the search without caches answers it. */
  predicate Agrees(files: Files, hist: seq<Request>, n: nat)
    requires n < |hist|
  {
    Seen(AnswerTo(files, hist, n)) == PlainAnswer(files, hist[n].0, hist[n].1)
  }

  predicate AskedBefore(hist: seq<Request>, n: nat, r: Request)
    requires n <= |hist|
  {
    exists i :: 0 <= i < n && hist[i] == r
  }

  /** What leads the record cache astray: a dictionary record that uses field 16 itself, or an item that
      the dictionary has in neither case and that was asked for in its other case before, with success,
      but not itself; the first only if field 16 decides, the second if it does or the two cases find different
      records. */
  predicate RecordAstray(files: Files, hist: seq<Request>, n: nat)
    requires n < |hist|
  {
    var (dict, id) := hist[n];
    || FieldUsed(files, hist[n])
    || (InFile(files, dict, id).None? && InFile(files, dict, OtherCase(id)).None?
        && !(AskedBefore(hist, n, hist[n]) && Find(files, dict, id).Some?)
        && AskedBefore(hist, n, (dict, OtherCase(id))) && Find(files, dict, OtherCase(id)).Some?
        && OtherRecord(files, dict, id))
  }

  /** Whether a record found under the other case does not serve for the item. */
  predicate OtherRecord(files: Files, dict: string, id: Id)
    requires Find(files, dict, OtherCase(id)).Some?
  {
    || Find(files, dict, id).None?
    || Decides(dict, Find(files, dict, id).value)
    || Bare(Find(files, dict, id).value) != Bare(Find(files, dict, OtherCase(id)).value)
  }

  predicate FieldUsed(files: Files, r: Request) {
    InFile(files, r.0, r.1).Some? && InFile(files, r.0, r.1).value.field16 && Decides(r.0, InFile(files, r.0, r.1).value)
  }

  /** The function that a request should use, if any. */
  function WantedFunction(files: Files, r: Request): Option<Function> {
    match PlainAnswer(files, r.0, r.1) case Missing => None case Answer(_, fn) => fn
  }

  /** What leads the function cache astray: an earlier request for another function with the same key. */
  predicate FunctionAstray(files: Files, hist: seq<Request>, n: nat)
    requires n < |hist|
  {
    exists i :: 0 <= i < n && WantedFunction(files, hist[i]).Some? && WantedFunction(files, hist[n]).Some?
      && WantedFunction(files, hist[i]) != WantedFunction(files, hist[n])
      && SameName(WantedFunction(files, hist[i]).value, WantedFunction(files, hist[n]).value)
  }

  /** Names of function and library that read the same with an underscore between them. */
  predicate SameName(f: Function, g: Function) {
    f.func + "_" + f.lib == g.func + "_" + g.lib
  }

  predicate Astray(files: Files, hist: seq<Request>, n: nat)
    requires n < |hist|
  {
    RecordAstray(files, hist, n) || FunctionAstray(files, hist, n)
  }

  /** The caches hold what the plain search found: for items not in the dictionary itself that were asked
      for, and for the functions that were asked for. */
  ghost predicate CachesOk(files: Files, hist: seq<Request>, n: nat, st: State)
    requires n <= |hist|
  {
    && (forall r :: r in st.cache <==>
          AskedBefore(hist, n, r) && InFile(files, r.0, r.1).None? && Find(files, r.0, r.1).Some?)
    && (forall r :: r in st.cache ==> Serves(files, r, st.cache[r]))
    && (forall i :: 0 <= i < n ==> FunctionStored(files, hist[i], st))
    && (forall k :: k in st.functions ==> StoredFor(files, hist, n, k, st.functions[k]))
    && (st.last.Some? ==> n > 0 && st.last.value == hist[n - 1] && LastOk(files, st))
    && (forall i :: 0 <= i < n ==> !FieldUsed(files, hist[i]))
  }

  /** A record serves for a request if it is used as the one that the plain search finds. */
  predicate Serves(files: Files, r: Request, rec: Rec) {
    Use(r.0, r.1, Some(rec)) == PlainAnswer(files, r.0, r.1)
  }

  predicate FunctionStored(files: Files, r: Request, st: State) {
    var f := WantedFunction(files, r);
    f.Some? ==> CacheKey(f.value) in st.functions && st.functions[CacheKey(f.value)] == f.value
  }

  ghost predicate StoredFor(files: Files, hist: seq<Request>, n: nat, key: string, f: Function)
    requires n <= |hist|
  {
    exists i :: 0 <= i < n && WantedFunction(files, hist[i]) == Some(f) && CacheKey(f) == key
  }

  predicate LastOk(files: Files, st: State)
    requires st.last.Some?
  {
    Seen(Answer(st.rec, if st.rec.kind == "S" then st.callable else None))
    == PlainAnswer(files, st.last.value.0, st.last.value.1)
  }

  lemma SearchMeans(files: Files, cache: map<Request, Rec>, dict: string, id: Id)
    ensures var r, o, found := (dict, id), (dict, OtherCase(id)), Search(files, cache, dict, id).0;
            && (r in cache ==> found == Some(cache[r]))
            && (r !in cache ==>
                  && (InFile(files, dict, id).Some? ==> found == InFile(files, dict, id))
                  && (InFile(files, dict, id).None? ==>
                        && (o in cache ==> found == Some(Bare(cache[o])))
                        && (o !in cache ==> found == Find(files, dict, id))))
  {
  }

  /** A record of the file is used as it should be, unless it uses field 16. */
  lemma OwnRecord(files: Files, dict: string, id: Id)
    requires InFile(files, dict, id).Some?
    ensures Use(dict, id, InFile(files, dict, id)) == PlainAnswer(files, dict, id) <==> !FieldUsed(files, (dict, id))
  {
    hide Lower;
  }

  /** A record that serves for the other case of an item serves for the item too, unless it is another one. */
  lemma OtherServes(files: Files, dict: string, id: Id, rec: Rec)
    requires InFile(files, dict, id).None? && InFile(files, dict, OtherCase(id)).None?
    requires Serves(files, (dict, OtherCase(id)), rec) && Find(files, dict, OtherCase(id)).Some?
    ensures Use(dict, id, Some(Bare(rec))) == PlainAnswer(files, dict, id) <==> !OtherRecord(files, dict, id)
  {
    hide Lower, OtherCase;
  }

  /** The search through good caches finds a record that is used as the one of the plain search, unless the request
      leads it astray. */
  lemma SearchAgrees(files: Files, hist: seq<Request>, n: nat, st: State)
    requires n < |hist| && CachesOk(files, hist, n, st)
    ensures var (dict, id) := hist[n];
            Use(dict, id, Search(files, st.cache, dict, id).0) == PlainAnswer(files, dict, id) <==> !RecordAstray(files, hist, n)
  {
    hide Search, Find, InFile, Use, OtherCase, PlainAnswer, FieldUsed, OtherRecord;
    var (dict, id) := hist[n];
    var r, o := (dict, id), (dict, OtherCase(id));
    assert r == hist[n];
    SearchMeans(files, st.cache, dict, id);
    assert r in st.cache <==> AskedBefore(hist, n, r) && InFile(files, r.0, r.1).None? && Find(files, r.0, r.1).Some?;
    assert o in st.cache <==> AskedBefore(hist, n, o) && InFile(files, o.0, o.1).None? && Find(files, o.0, o.1).Some?;
    NotOwn(files, r);
    if r in st.cache {
      assert Serves(files, r, st.cache[r]);
    } else if InFile(files, dict, id).Some? {
      OwnRecord(files, dict, id);
    } else if o in st.cache {
      OtherServes(files, dict, id, st.cache[o]);
    } else {
      assert !RecordAstray(files, hist, n);
      assert Use(dict, id, Search(files, st.cache, dict, id).0) == PlainAnswer(files, dict, id) by {
        PlainIsUse(files, dict, id);
      }
    }
  }

  lemma NotOwn(files: Files, r: Request)
    ensures InFile(files, r.0, r.1).None? ==> !FieldUsed(files, r)
  {
  }

  lemma PlainIsUse(files: Files, dict: string, id: Id)
    ensures PlainAnswer(files, dict, id) == Use(dict, id, Find(files, dict, id))
  {
  }

  lemma AskedNext(hist: seq<Request>, n: nat, r: Request)
    requires n < |hist|
    ensures AskedBefore(hist, n + 1, r) <==> AskedBefore(hist, n, r) || hist[n] == r
  {
  }

  /** The record cache after a request that is not led astray. */
  lemma CacheNext(files: Files, hist: seq<Request>, n: nat, st: State)
    requires n < |hist| && CachesOk(files, hist, n, st) && !RecordAstray(files, hist, n)
    ensures var cache := Search(files, st.cache, hist[n].0, hist[n].1).1;
            && (forall r :: r in cache <==>
                  AskedBefore(hist, n + 1, r) && InFile(files, r.0, r.1).None? && Find(files, r.0, r.1).Some?)
            && (forall r :: r in cache ==> Serves(files, r, cache[r]))
  {
    hide Find, InVoc, Lower, OtherCase;
    SearchAgrees(files, hist, n, st);
    var (dict, id) := hist[n];
    assert hist[n] == (dict, id);
    forall r
      ensures AskedBefore(hist, n + 1, r) <==> AskedBefore(hist, n, r) || hist[n] == r
    {
      AskedNext(hist, n, r);
    }
    assert (dict, id) in st.cache <==>
      AskedBefore(hist, n, hist[n]) && InFile(files, dict, id).None? && Find(files, dict, id).Some?;
  }

  lemma SameKey(f: Function, g: Function)
    ensures SameName(f, g) <==> CacheKey(f) == CacheKey(g)
  {
  }

  /** The function cache gives the function wanted unless the request leads it astray. */
  lemma FunctionAgrees(files: Files, hist: seq<Request>, n: nat, st: State, f: Function)
    requires n < |hist| && CachesOk(files, hist, n, st) && WantedFunction(files, hist[n]) == Some(f)
    ensures FunctionAstray(files, hist, n) <==> CacheKey(f) in st.functions && st.functions[CacheKey(f)] != f
  {
    hide WantedFunction, CacheKey, SameName;
    if CacheKey(f) in st.functions && st.functions[CacheKey(f)] != f {
      assert StoredFor(files, hist, n, CacheKey(f), st.functions[CacheKey(f)]);
      var i :| 0 <= i < n && WantedFunction(files, hist[i]) == Some(st.functions[CacheKey(f)])
        && CacheKey(st.functions[CacheKey(f)]) == CacheKey(f);
      SameKey(st.functions[CacheKey(f)], f);
    }
    if FunctionAstray(files, hist, n) {
      var i :| 0 <= i < n && WantedFunction(files, hist[i]).Some? && WantedFunction(files, hist[n]).Some?
        && WantedFunction(files, hist[i]) != WantedFunction(files, hist[n])
        && SameName(WantedFunction(files, hist[i]).value, WantedFunction(files, hist[n]).value);
      SameKey(WantedFunction(files, hist[i]).value, f);
      assert FunctionStored(files, hist[i], st);
    }
  }

  /** A repeated request is answered from what is remembered, and is not astray. */
  lemma RepeatAgrees(files: Files, hist: seq<Request>, n: nat, st: State)
    requires n < |hist| && CachesOk(files, hist, n, st) && st.last == Some(hist[n])
    ensures Seen(Request1(files, st, hist[n].0, hist[n].1).0) == PlainAnswer(files, hist[n].0, hist[n].1)
    ensures !Astray(files, hist, n)
  {
    hide Find, CacheKey, FunctionOf;
    assert hist[n - 1] == hist[n] && !FieldUsed(files, hist[n - 1]);
    assert AskedBefore(hist, n, hist[n]);
    assert !RecordAstray(files, hist, n);
    var w := WantedFunction(files, hist[n]);
    if w.Some? {
      FunctionAgrees(files, hist, n, st, w.value);
      assert FunctionStored(files, hist[n - 1], st);
    } else {
      assert !FunctionAstray(files, hist, n);
    }
  }

  /** The function that a new request gets for a record. */
  function Used(st: State, f: Function): Function {
    if CacheKey(f) in st.functions then st.functions[CacheKey(f)] else f
  }

  lemma NewAnswer(files: Files, st: State, dict: string, id: Id)
    requires st.last != Some((dict, id))
    ensures var use := Use(dict, id, Search(files, st.cache, dict, id).0);
            Seen(Request1(files, st, dict, id).0) ==
            match use case Missing => Missing case Answer(rec, fn) =>
              Answer(rec, if fn.Some? then Some(Used(st, fn.value)) else None)
  {
    hide Search, FunctionOf, CacheKey;
  }

  lemma OtherKey(dict: string, id: Id, x: bool, y: bool)
    requires FunctionOf(dict, id, x) != FunctionOf(dict, id, y)
    ensures CacheKey(FunctionOf(dict, id, x)) != CacheKey(FunctionOf(dict, id, y))
  {
    hide LibName, Lower;
    var f, g := FunctionOf(dict, id, x), FunctionOf(dict, id, y);
    var front := f.func + "_";
    assert CacheKey(f)[|front|..] == f.lib && CacheKey(g)[|front|..] == g.lib;
  }

  /** Two uses of an item with the same record call functions that are cached under different names. */
  lemma OtherUse(dict: string, id: Id, a: Option<Rec>, b: Option<Rec>)
    requires Use(dict, id, a) != Use(dict, id, b)
    ensures var x, y := Use(dict, id, a), Use(dict, id, b);
            x.Answer? && y.Answer? && x.rec == y.rec ==>
              x.fn.Some? && y.fn.Some? && CacheKey(x.fn.value) != CacheKey(y.fn.value)
  {
    hide FunctionOf, CacheKey;
    if a.Some? && b.Some? && Bare(a.value) == Bare(b.value) {
      assert a.value.kind == Bare(a.value).kind == Bare(b.value).kind == b.value.kind;
      if FunctionOf(dict, id, a.value.field16) != FunctionOf(dict, id, b.value.field16) {
        OtherKey(dict, id, a.value.field16, b.value.field16);
      }
    }
  }

  lemma UsedKey(files: Files, hist: seq<Request>, n: nat, st: State, f: Function)
    requires n <= |hist| && CachesOk(files, hist, n, st)
    ensures CacheKey(Used(st, f)) == CacheKey(f)
  {
    hide CacheKey, WantedFunction;
    if CacheKey(f) in st.functions {
      assert StoredFor(files, hist, n, CacheKey(f), st.functions[CacheKey(f)]);
    }
  }

  lemma NewAgrees(files: Files, hist: seq<Request>, n: nat, st: State)
    requires n < |hist| && CachesOk(files, hist, n, st) && st.last != Some(hist[n])
    ensures Seen(Request1(files, st, hist[n].0, hist[n].1).0) == PlainAnswer(files, hist[n].0, hist[n].1)
            <==> !Astray(files, hist, n)
  {
    hide Find, Search, RecordAstray, CacheKey, CachesOk, FunctionOf, Request1, Seen, Use;
    var (dict, id) := hist[n];
    assert hist[n] == (dict, id);
    SearchAgrees(files, hist, n, st);
    NewAnswer(files, st, dict, id);
    var use := Use(dict, id, Search(files, st.cache, dict, id).0);
    if RecordAstray(files, hist, n) {
      OtherUse(dict, id, Search(files, st.cache, dict, id).0, Find(files, dict, id));
      if use.Answer? && use.fn.Some? {
        UsedKey(files, hist, n, st, use.fn.value);
      }
    } else {
      var w := WantedFunction(files, hist[n]);
      if w.Some? {
        FunctionAgrees(files, hist, n, st, w.value);
      } else {
        assert !FunctionAstray(files, hist, n);
      }
    }
  }

  lemma StoredStays(files: Files, hist: seq<Request>, n: nat, key: string, f: Function)
    requires n < |hist|
    ensures StoredFor(files, hist, n, key, f) ==> StoredFor(files, hist, n + 1, key, f)
  {
  }

  /** The function cache after a request that is not led astray. */
  lemma FunctionsNext(files: Files, hist: seq<Request>, n: nat, st: State)
    requires n < |hist| && CachesOk(files, hist, n, st) && st.last != Some(hist[n]) && !Astray(files, hist, n)
    ensures var st' := Request1(files, st, hist[n].0, hist[n].1).1;
            && (forall i :: 0 <= i <= n ==> FunctionStored(files, hist[i], st'))
            && (forall k :: k in st'.functions ==> StoredFor(files, hist, n + 1, k, st'.functions[k]))
  {
    hide Find, Search, CacheKey, FunctionOf, RecordAstray, AskedBefore;
    var (dict, id) := hist[n];
    assert hist[n] == (dict, id);
    var st' := Request1(files, st, dict, id).1;
    SearchAgrees(files, hist, n, st);
    var w := WantedFunction(files, hist[n]);
    if w.Some? {
      FunctionAgrees(files, hist, n, st, w.value);
    }
    assert forall i :: 0 <= i < n ==> FunctionStored(files, hist[i], st);
    assert FunctionStored(files, hist[n], st');
    forall k | k in st'.functions
      ensures StoredFor(files, hist, n + 1, k, st'.functions[k])
    {
      if k in st.functions {
        assert StoredFor(files, hist, n, k, st.functions[k]);
        StoredStays(files, hist, n, k, st.functions[k]);
      } else {
        assert WantedFunction(files, hist[n]) == Some(st'.functions[k]);
      }
    }
  }

  lemma LastNext(files: Files, hist: seq<Request>, n: nat, st: State)
    requires n < |hist| && CachesOk(files, hist, n, st) && st.last != Some(hist[n]) && !Astray(files, hist, n)
    ensures var st' := Request1(files, st, hist[n].0, hist[n].1).1;
            st'.last.Some? ==> st'.last.value == hist[n] && LastOk(files, st')
  {
    hide Find, Search, CacheKey, FunctionOf, RecordAstray, FunctionAstray, AskedBefore;
    var (dict, id) := hist[n];
    assert hist[n] == (dict, id);
    SearchAgrees(files, hist, n, st);
    var w := WantedFunction(files, hist[n]);
    if w.Some? {
      FunctionAgrees(files, hist, n, st, w.value);
    }
  }

  lemma CachesNext(files: Files, hist: seq<Request>, n: nat, st: State)
    requires n < |hist| && CachesOk(files, hist, n, st) && st.last != Some(hist[n]) && !Astray(files, hist, n)
    ensures CachesOk(files, hist, n + 1, Request1(files, st, hist[n].0, hist[n].1).1)
  {
    hide Find, Search, CacheKey, FunctionOf, RecordAstray, FunctionAstray, AskedBefore;
    hide FunctionStored, StoredFor, LastOk, FieldUsed;
    var (dict, id) := hist[n];
    assert hist[n] == (dict, id);
    CacheNext(files, hist, n, st);
    SearchMissing(files, st.cache, dict, id);
    NotFieldUsed(files, hist, n);
    FunctionsNext(files, hist, n, st);
    LastNext(files, hist, n, st);
  }

  lemma SearchMissing(files: Files, cache: map<Request, Rec>, dict: string, id: Id)
    ensures Search(files, cache, dict, id).0.None? ==> Search(files, cache, dict, id).1 == cache
  {
  }

  lemma NotFieldUsed(files: Files, hist: seq<Request>, n: nat)
    requires n < |hist| && !RecordAstray(files, hist, n)
    ensures !FieldUsed(files, hist[n])
  {
  }

  lemma SameCaches(files: Files, hist: seq<Request>, n: nat, st: State)
    requires n < |hist| && CachesOk(files, hist, n, st) && st.last == Some(hist[n])
    ensures CachesOk(files, hist, n + 1, st)
  {
    hide Find, CacheKey, FunctionOf, LastOk;
    assert hist[n - 1] == hist[n];
    forall r
      ensures AskedBefore(hist, n + 1, r) <==> AskedBefore(hist, n, r)
    {
      AskedNext(hist, n, r);
    }
    forall k | k in st.functions
      ensures StoredFor(files, hist, n + 1, k, st.functions[k])
    {
      StoredStays(files, hist, n, k, st.functions[k]);
    }
    assert FunctionStored(files, hist[n - 1], st) && !FieldUsed(files, hist[n - 1]);
  }

  lemma {:induction false} CachesAlways(files: Files, hist: seq<Request>, n: nat)
    requires n <= |hist| && forall i :: 0 <= i < n ==> !Astray(files, hist, i)
    ensures CachesOk(files, hist, n, After(files, hist, n))
  {
    hide CachesOk, Request1, Astray;
    if n == 0 {
      CachesAtStart(files, hist);
    } else {
      CachesAlways(files, hist, n - 1);
      var st := After(files, hist, n - 1);
      if st.last == Some(hist[n - 1]) {
        SameCaches(files, hist, n - 1, st);
        Repeated(files, st, hist[n - 1]);
      } else {
        CachesNext(files, hist, n - 1, st);
      }
    }
  }

  lemma CachesAtStart(files: Files, hist: seq<Request>)
    ensures CachesOk(files, hist, 0, START)
  {
    assert forall r :: !AskedBefore(hist, 0, r);
  }

  lemma Repeated(files: Files, st: State, r: Request)
    requires st.last == Some(r)
    ensures Request1(files, st, r.0, r.1).1 == st
  {
  }

  lemma FirstAstray(files: Files, hist: seq<Request>, n: nat)
    requires n < |hist| && forall i :: 0 <= i < n ==> !Astray(files, hist, i)
    ensures Agrees(files, hist, n) <==> !Astray(files, hist, n)
  {
    hide CachesOk, Request1, Astray, PlainAnswer;
    CachesAlways(files, hist, n);
    var st := After(files, hist, n);
    if st.last == Some(hist[n]) {
      RepeatAgrees(files, hist, n, st);
    } else {
      NewAgrees(files, hist, n, st);
    }
  }

  /** Over any history of requests and changes of dictionary, every answer is that of the search without
      caches if and only if no request leads a cache astray. */
  lemma {:induction false} CacheAgreesIff(files: Files, hist: seq<Request>, n: nat)
    requires n <= |hist|
    ensures (forall i :: 0 <= i < n ==> Agrees(files, hist, i)) <==> (forall i :: 0 <= i < n ==> !Astray(files, hist, i))
  {
    if n > 0 {
      hide Agrees, Astray;
      CacheAgreesIff(files, hist, n - 1);
      if forall i :: 0 <= i < n - 1 ==> !Astray(files, hist, i) {
        FirstAstray(files, hist, n - 1);
      }
    }
  }

  // ----- which record, and which function -----

  predicate Capital(c: char) {
    'A' <= c <= 'Z'
  }

  /** `t` is `s` with small letters for the capital ones. */
  ghost predicate InSmall(s: string, t: string) {
    |t| == |s| && forall i :: 0 <= i < |s| ==>
      if Capital(s[i]) then 'a' <= t[i] <= 'z' && t[i] as int == s[i] as int + 32 else t[i] == s[i]
  }

  ghost predicate NoCapital(s: string) {
    forall i :: 0 <= i < |s| ==> !Capital(s[i])
  }

  /** `t` is the item's name in the other case: in small letters, or in capital ones if it has no capital. */
  ghost predicate OtherSpelling(s: string, t: string) {
    if NoCapital(s)
    then |t| == |s| && (forall i :: 0 <= i < |s| ==>
           if 'a' <= s[i] <= 'z' then Capital(t[i]) && s[i] as int == t[i] as int + 32 else t[i] == s[i])
    else InSmall(s, t)
  }

  /** `lib` is the name of a file in small letters and with an underscore for every dot. */
  ghost predicate LibraryOf(dict: string, lib: string) {
    |lib| == |dict| && forall i :: 0 <= i < |dict| ==>
      if dict[i] == '.' then lib[i] == '_'
      else if Capital(dict[i]) then 'a' <= lib[i] <= 'z' && lib[i] as int == dict[i] as int + 32
      else lib[i] == dict[i]
  }

  /** The dictionary of a file, empty if there is none. */
  function Own(files: Files, dict: string): Dictionary {
    if dict in files.dicts then files.dicts[dict] else map[]
  }

  /** The record that an answer has is, but for field 16, this one. */
  predicate Has(a: Answer, rec: Rec) {
    a.Answer? && a.rec.kind == rec.kind && a.rec.body == rec.body
  }

  lemma OtherCaseIs(id: Id, other: Id)
    requires OtherSpelling(id, other)
    ensures OtherCase(id) == other
  {
    if NoCapital(id) {
      assert Lower(id) == id;
      assert Upper(id) == other;
    } else {
      assert Lower(id) == other;
      var i :| 0 <= i < |id| && Capital(id[i]);
      assert Lower(id)[i] != id[i];
    }
  }

  /** The record is that of the item in the file's own dictionary, else of its name in the other case there, else of
      the item in the shared dictionary, else of the other case there; and without any there is no answer. */
  lemma RecordMeans(files: Files, dict: string, id: Id, other: Id)
    requires OtherSpelling(id, other)
    ensures var a, own := PlainAnswer(files, dict, id), Own(files, dict);
            && (id in own ==> Has(a, own[id]))
            && (id !in own && other in own ==> Has(a, own[other]))
            && (id !in own && other !in own && id in files.voc ==> Has(a, files.voc[id]))
            && (id !in own && other !in own && id !in files.voc && other in files.voc ==> Has(a, files.voc[other]))
            && (id !in own && other !in own && id !in files.voc && other !in files.voc ==> a == Missing)
  {
    hide OtherCase;
    OtherCaseIs(id, other);
  }

  /** A record of kind S calls a function: its name is the item's in small letters, and it is in the library of the shared
      dictionary if neither case of the item is in the file's own one, and else in the library named after the file. */
  lemma FunctionMeans(files: Files, dict: string, id: Id, other: Id)
    requires OtherSpelling(id, other)
    ensures var a, own := PlainAnswer(files, dict, id), Own(files, dict);
            a.Answer? ==>
              && (a.fn.Some? <==> a.rec.kind == "S")
              && (a.fn.Some? ==>
                    && InSmall(id, a.fn.value.func) && NoCapital(a.fn.value.func)
                    && if id in own || other in own then LibraryOf(dict, a.fn.value.lib) else a.fn.value.lib == "dict_voc")
  {
    hide OtherCase;
    OtherCaseIs(id, other);
  }

  /** Requests that differ in the case of the item only, and are found in the same dictionary, get the same function. */
  lemma SameFunction(files: Files, dict: string, id: Id, other: Id, id': Id, other': Id, small: string)
    requires OtherSpelling(id, other) && OtherSpelling(id', other') && InSmall(id, small) && InSmall(id', small)
    requires (id in Own(files, dict) || other in Own(files, dict)) <==> (id' in Own(files, dict) || other' in Own(files, dict))
    ensures var a, b := PlainAnswer(files, dict, id), PlainAnswer(files, dict, id');
            a.Answer? && b.Answer? && a.fn.Some? && b.fn.Some? ==> a.fn == b.fn
  {
    hide OtherCase, Find;
    FunctionMeans(files, dict, id, other);
    FunctionMeans(files, dict, id', other');
    var a, b := PlainAnswer(files, dict, id), PlainAnswer(files, dict, id');
    if a.Answer? && b.Answer? && a.fn.Some? && b.fn.Some? {
      OneSmall(id, a.fn.value.func, small);
      OneSmall(id', b.fn.value.func, small);
      if id in Own(files, dict) || other in Own(files, dict) {
        OneLibrary(dict, a.fn.value.lib, b.fn.value.lib);
      }
    }
  }

  lemma OneSmall(s: string, t: string, u: string)
    requires InSmall(s, t) && InSmall(s, u)
    ensures t == u
  {
    assert forall i :: 0 <= i < |s| ==> t[i] as int == u[i] as int;
  }

  lemma OneLibrary(dict: string, t: string, u: string)
    requires LibraryOf(dict, t) && LibraryOf(dict, u)
    ensures t == u
  {
    assert forall i :: 0 <= i < |dict| ==> t[i] as int == u[i] as int;
  }

  /** An item of the shared dictionary alone, asked for in one case and then in the other: the second answer is
      right unless the item calls a function, which is then taken from the library of the file. */
  lemma OtherCaseAstray(rec: Rec)
    ensures var files, hist := Files(map[], map["A" := rec]), [("d", "A"), ("d", "a")];
            && (Agrees(files, hist, 1) <==> rec.kind != "S")
            && (rec.kind == "S" ==>
                  && AnswerTo(files, hist, 1) == Answer(rec.(field16 := false), Some(Function("d", "a")))
                  && PlainAnswer(files, "d", "a") == Answer(rec.(field16 := false), Some(Function("dict_voc", "a"))))
  {
    var files := Files(map[], map["A" := rec]);
    var hist := [("d", "A"), ("d", "a")];
    assert Lower("A") == "a" && Upper("a") == "A" && Lower("a") == "a";
    assert OtherCase("A") == "a" && OtherCase("a") == "A";
    assert LibName("d") == "d" by { assert Lower("d") == "d"; }
    assert hist[0] == ("d", "A") && hist[1] == ("d", "a");
    assert CacheKey(Function("d", "a"))[2..] == "d";
    assert CacheKey(Function("dict_voc", "a"))[2..] == "dict_voc";
    assert After(files, hist, 0) == START;
    var st := After(files, hist, 1);
    assert st == Request1(files, START, "d", "A").1;
    assert st.cache == map[("d", "A") := rec.(field16 := true)];
    assert Search(files, st.cache, "d", "a").0 == Some(rec.(field16 := false));
  }
}
