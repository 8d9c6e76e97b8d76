/**
 * GamePluginLoader: the registry of plugins found in jar files of the plugins
 * directory. Plugins are keyed by game name and the first one registered under
 * a name wins; the names of the jar files loaded so far are remembered so that
 * a file is not loaded twice by the directory scan or the watcher.
 *
 * A jar is an abstract value: what the ServiceLoader pass over it yields, and
 * its entries, each with the outcome of loading and instantiating the class
 * it names. Class loading itself is not modelled.
 */
module Loader {
  import opened Basics
  import opened Text
  import opened Plugins

  /** The ServiceLoader pass over a jar. */
  datatype ServiceResult =
    | Services(plugins: seq<Plugin>)
      /**
       * After yielding these plugins, a provider the jar names could not be
       * loaded or instantiated. ServiceLoader reports that as a
       * ServiceConfigurationError, an Error, which none of the loader's
       * `catch (Exception e)` handlers catches.
       */
    | ServiceError(before: seq<Plugin>)

  /** The plugins the pass yielded before it ended, one way or the other. */
  function Yielded(s: ServiceResult): (yielded: seq<Plugin>) {
    match s
    case Services(ps) => ps
    case ServiceError(ps) => ps
  }

  /**
   * Loading the class whose name the manual scan computes from an entry, and
   * instantiating it when it is a concrete GamePlugin.
   */
  datatype ClassOutcome =
      /** It loads, but is not a concrete GamePlugin (an interface, abstract, or unrelated). */
    | NotAPlugin
      /** A concrete GamePlugin whose no-argument constructor gave this plugin. */
    | Instance(plugin: Plugin)
      /** Loading or constructing it threw an exception or a NoClassDefFoundError, which the scan catches. */
    | LoadFails
      /** Loading or constructing it threw another Error (an ExceptionInInitializerError, say), which escapes. */
    | LoadErrors

  datatype JarEntry = JarEntry(name: string, outcome: ClassOutcome)

  /** A jar file's content; `entries` is None when the file cannot be opened as a jar. */
  datatype Jar = Jar(services: ServiceResult, entries: Option<seq<JarEntry>>)

  /** A file of the plugins directory, by name. */
  datatype JarFile = JarFile(name: string, jar: Jar)

  /** The registry never holds a plugin under a name other than its own. */
  ghost predicate Keyed(m: map<string, Plugin>) {
    forall n :: n in m ==> m[n].GetGameName() == n
  }

  /** The guarded `put`: a plugin whose name is taken is ignored. */
  function Register(m: map<string, Plugin>, p: Plugin): (r: map<string, Plugin>)
    ensures r.Keys == m.Keys + {p.GetGameName()}
    ensures forall n :: n in m ==> r[n] == m[n]
    ensures p.GetGameName() !in m ==> r[p.GetGameName()] == p
  {
    if p.GetGameName() in m then m else m[p.GetGameName() := p]
  }

  /** A registration grows the map by one exactly when the name is new. */
  lemma RegisterSize(m: map<string, Plugin>, p: Plugin)
    ensures |Register(m, p)| == |m| + if p.GetGameName() in m then 0 else 1
  {
  }

  /** The ServiceLoader loop: each yielded plugin registered in turn. */
  function RegisterAll(m: map<string, Plugin>, ps: seq<Plugin>): (registered: map<string, Plugin>) {
    if ps == [] then m else Register(RegisterAll(m, ps[..|ps| - 1]), ps[|ps| - 1])
  }

  /** `loadedCount`: how many of ps were registered, not ignored. */
  function NewCount(m: map<string, Plugin>, ps: seq<Plugin>): (count: nat) {
    if ps == [] then 0
    else NewCount(m, ps[..|ps| - 1]) + (if ps[|ps| - 1].GetGameName() in RegisterAll(m, ps[..|ps| - 1]) then 0 else 1)
  }

  /**
   * The first registration under a name wins: the old entries stay as they
   * were, and the registry stays keyed by name.
   */
  lemma {:induction false} RegisterAllKeeps(m: map<string, Plugin>, ps: seq<Plugin>)
    ensures forall n :: n in m ==> n in RegisterAll(m, ps) && RegisterAll(m, ps)[n] == m[n]
    ensures Keyed(m) ==> Keyed(RegisterAll(m, ps))
  {
    if ps != [] {
      RegisterAllKeeps(m, ps[..|ps| - 1]);
    }
  }

  /** The names of ps. */
  function Names(ps: seq<Plugin>): (names: set<string>)
    ensures forall i :: 0 <= i < |ps| ==> ps[i].GetGameName() in names
  {
    if ps == [] then {} else Names(ps[..|ps| - 1]) + {ps[|ps| - 1].GetGameName()}
  }

  /** Every name of ps is the name of one of its plugins. */
  lemma {:induction false} NamesFrom(ps: seq<Plugin>, n: string)
    requires n in Names(ps)
    ensures exists i :: 0 <= i < |ps| && ps[i].GetGameName() == n
  {
    var front := ps[..|ps| - 1];
    if n in Names(front) {
      NamesFrom(front, n);
      var i :| 0 <= i < |front| && front[i].GetGameName() == n;
      assert ps[i] == front[i];
    }
  }

  /** The names registered are the old ones and those of ps. */
  lemma {:induction false} RegisterAllNames(m: map<string, Plugin>, ps: seq<Plugin>)
    ensures RegisterAll(m, ps).Keys == m.Keys + Names(ps)
  {
    if ps != [] {
      var front := ps[..|ps| - 1];
      RegisterAllNames(m, front);
      assert Names(ps) == Names(front) + {ps[|ps| - 1].GetGameName()};
    }
  }

  /** The count of new registrations is the growth of the map. */
  lemma {:induction false} RegisterAllGrowth(m: map<string, Plugin>, ps: seq<Plugin>)
    ensures |RegisterAll(m, ps)| == |m| + NewCount(m, ps)
  {
    if ps != [] {
      var front := ps[..|ps| - 1];
      RegisterAllGrowth(m, front);
      RegisterSize(RegisterAll(m, front), ps[|ps| - 1]);
    }
  }

  /**
   * The pass registered nothing new exactly when every plugin it yielded has a
   * name already taken, and then the map is as it was.
   */
  lemma {:induction false} NewCountZero(m: map<string, Plugin>, ps: seq<Plugin>)
    ensures NewCount(m, ps) == 0 <==> Names(ps) <= m.Keys
    ensures NewCount(m, ps) == 0 ==> RegisterAll(m, ps) == m
  {
    if ps != [] {
      var front := ps[..|ps| - 1];
      NewCountZero(m, front);
      RegisterAllNames(m, front);
    }
  }


  /** An entry the manual scan looks at: a class file whose name has no '$'. */
  predicate IsClassEntry(name: string) {
    EndsWith(name, ".class") && '$' !in name
  }

  /**
   * The class name as the scan computes it: '/' becomes '.', then every
   * ".class" is deleted, not only the suffix.
   */
  function ClassNameAsWritten(name: string): (className: string) {
    ReplaceAll(ReplaceChar(name, '/', '.'), ".class", "")
  }

  /** The intended class name: the entry's path without the ".class" suffix, with '.' for '/'. */
  function ClassName(name: string): (className: string)
    requires EndsWith(name, ".class")
    ensures className + ".class" == ReplaceChar(name, '/', '.')
    ensures forall c :: c in className && c != '.' ==> c in name
  {
    var t := name[..|name| - 6];
    assert name == t + ".class";
    ReplaceCharAppend(t, ".class", '/', '.');
    ReplaceChar(t, '/', '.')
  }

  /**
   * Where the path without its suffix turns into a name with no ".class" in
   * it, the name as written and the intended one agree.
   */
  lemma ClassNameAgrees(t: string)
    requires !HasSubstring(ReplaceChar(t, '/', '.'), ".class")
    ensures ClassNameAsWritten(t + ".class") == ClassName(t + ".class")
  {
    ReplaceCharAppend(t, ".class", '/', '.');
    assert ReplaceChar(".class", '/', '.') == ".class";
    DropClassSuffix(ReplaceChar(t, '/', '.'));
    assert (t + ".class")[..|t + ".class"| - 6] == t;
  }

  /** Deleting every ".class" from "a.classB.class" leaves "aB". */
  lemma ReplaceAllMangles()
    ensures ReplaceAll("a.classB.class", ".class", "") == "aB"
  {
    assert !StartsWith("a.classB.class", ".class") by { assert "a.classB.class"[..6][0] == 'a'; }
    assert StartsWith(".classB.class", ".class") by { assert ".classB.class"[..6] == ".class"; }
    assert !StartsWith("B.class", ".class") by { assert "B.class"[..6][0] == 'B'; }
    assert StartsWith(".class", ".class");
    calc {
      ReplaceAll("a.classB.class", ".class", "");
      { assert "a.classB.class"[1..] == ".classB.class"; }
      "a" + ReplaceAll(".classB.class", ".class", "");
      { assert ".classB.class"[6..] == "B.class"; }
      "a" + ReplaceAll("B.class", ".class", "");
      { assert "B.class"[1..] == ".class"; }
      "a" + ("B" + ReplaceAll(".class", ".class", ""));
      { assert ".class"[6..] == ""; }
      "aB";
    }
  }

  /**
   * The entry "a/classB.class" holds class a.classB, but the name as written
   * loses both ".class" occurrences and asks for "aB".
   */
  lemma ClassNameMangled()
    ensures ClassName("a/classB.class") == "a.classB"
    ensures ClassNameAsWritten("a/classB.class") == "aB"
  {
    SlashToDot("a/classB.class", "a.classB.class");
    SlashToDot("a/classB", "a.classB");
    ReplaceAllMangles();
    assert "a/classB.class"[..|"a/classB.class"| - 6] == "a/classB";
  }

  /** t is s with its one '/' at index 1 turned into '.'. */
  lemma SlashToDot(s: string, t: string)
    requires |s| == |t| >= 2 && s[1] == '/' && t[1] == '.'
    requires forall k :: 0 <= k < |s| && k != 1 ==> s[k] == t[k] && s[k] != '/'
    ensures ReplaceChar(s, '/', '.') == t
  {
    var r := ReplaceChar(s, '/', '.');
    forall k | 0 <= k < |s| ensures r[k] == t[k] {
    }
  }

  /** The second test of the scan: packages under META-INF and nested classes are skipped. */
  predicate Skipped(className: string) {
    StartsWith(className, "META-INF") || '$' in className
  }

  /**
   * Of the two reasons to skip, the '$' one never applies to a class entry:
   * turning '/' into '.' and deleting ".class" bring in no '$'.
   */
  lemma NoDollarInClassName(name: string)
    requires IsClassEntry(name)
    ensures '$' !in ClassNameAsWritten(name)
    ensures Skipped(ClassNameAsWritten(name)) <==> StartsWith(ClassNameAsWritten(name), "META-INF")
  {
    DeleteAddsNothing(ReplaceChar(name, '/', '.'), ".class", '$');
  }

  /** The scan loads the class of e: a class entry whose computed name is not skipped. */
  predicate Tried(e: JarEntry) {
    IsClassEntry(e.name) && !Skipped(ClassNameAsWritten(e.name))
  }

  /** The scan registers the instance of e. */
  predicate Accepts(e: JarEntry) {
    Tried(e) && e.outcome.Instance?
  }

  /** Loading the class of e raises an Error that leaves the scan. */
  predicate Escapes(e: JarEntry) {
    Tried(e) && e.outcome.LoadErrors?
  }

  /** What the manual scan makes of one entry: nothing, an instance to register, or an Error that leaves the scan. */
  datatype Verdict = Pass | Offer(plugin: Plugin) | Escape

  /** The scan's decision for one entry, from its computed class name and the outcome of loading that class. */
  function Judge(e: JarEntry): (v: Verdict)
    ensures v.Offer? ==> e.outcome == Instance(v.plugin)
  {
    if !Tried(e) then Pass
    else match e.outcome
      case Instance(p) => Offer(p)
      case LoadErrors => Escape
      case _ => Pass
  }

  /** The decision registers exactly the entries the scan accepts, and stops exactly at those that raise an Error. */
  lemma JudgeMeans(e: JarEntry)
    ensures Judge(e).Offer? <==> Accepts(e)
    ensures Judge(e).Escape? <==> Escapes(e)
  {
  }

  /** The scan's decisions, entry by entry. */
  function Judged(es: seq<JarEntry>): (vs: seq<Verdict>)
    ensures |vs| == |es|
  {
    if es == [] then [] else Judged(es[..|es| - 1]) + [Judge(es[|es| - 1])]
  }

  /** The i-th decision is the one for the i-th entry. */
  lemma {:induction false} JudgedAt(es: seq<JarEntry>, i: int)
    requires 0 <= i < |es|
    ensures Judged(es)[i] == Judge(es[i])
  {
    if i < |es| - 1 {
      JudgedAt(es[..|es| - 1], i);
    }
  }

  /** The plugins a run of decisions offers for registration, in order. */
  function Offers(vs: seq<Verdict>): (ps: seq<Plugin>)
    ensures |ps| <= |vs|
  {
    if vs == [] then []
    else Offers(vs[..|vs| - 1]) + (if vs[|vs| - 1].Offer? then [vs[|vs| - 1].plugin] else [])
  }

  /** A plugin offered comes from one of the decisions. */
  lemma {:induction false} OffersFrom(vs: seq<Verdict>, p: Plugin)
    requires p in Offers(vs)
    ensures exists i :: 0 <= i < |vs| && vs[i] == Offer(p)
  {
    var front := vs[..|vs| - 1];
    if p in Offers(front) {
      OffersFrom(front, p);
      var i :| 0 <= i < |front| && front[i] == Offer(p);
      assert vs[i] == front[i];
    }
  }

  /** The plugins the manual scan offers for registration, in entry order. */
  function Instances(es: seq<JarEntry>): (ps: seq<Plugin>)
    ensures |ps| <= |es|
  {
    Offers(Judged(es))
  }

  /** An instance offered comes from an entry the scan accepts. */
  lemma InstancesFrom(es: seq<JarEntry>, p: Plugin)
    requires p in Instances(es)
    ensures exists i :: 0 <= i < |es| && Accepts(es[i]) && es[i].outcome.plugin == p
  {
    OffersFrom(Judged(es), p);
    var i :| 0 <= i < |es| && Judged(es)[i] == Offer(p);
    JudgedAt(es, i);
  }

  /** The registrations of a run of decisions none of which is an Error. */
  function ManualScan(m: map<string, Plugin>, vs: seq<Verdict>): (registered: map<string, Plugin>) {
    RegisterAll(m, Offers(vs))
  }

  /** One more decision: its instance, if it offers one, is registered after the others. */
  lemma ManualScanStep(m: map<string, Plugin>, vs: seq<Verdict>, v: Verdict)
    ensures ManualScan(m, vs + [v]) == if v.Offer? then Register(ManualScan(m, vs), v.plugin) else ManualScan(m, vs)
  {
    assert (vs + [v])[..|vs|] == vs;
    var ps := Offers(vs);
    if v.Offer? {
      var qs := ps + [v.plugin];
      assert Offers(vs + [v]) == qs;
      assert qs[..|qs| - 1] == ps;
    } else {
      assert Offers(vs + [v]) == ps + [] == ps;
    }
  }

  /** The index of the first decision that is an Error, or |vs| when there is none. */
  function FirstError(vs: seq<Verdict>): (k: nat)
    ensures k <= |vs|
    ensures forall j :: 0 <= j < k ==> !vs[j].Escape?
    ensures k < |vs| ==> vs[k].Escape?
    decreases |vs|
  {
    if vs == [] then 0
    else if vs[0].Escape? then 0
    else
      var k := FirstError(vs[1..]);
      assert forall j :: 0 < j <= k ==> vs[j] == vs[1..][j - 1];
      1 + k
  }

  /** How a load ends: normally, with an exception, or with an Error that no handler of the loader catches. */
  datatype Outcome = Returned | Threw | Errored

  /** What loading one jar leaves: the registry, and how the load ended. */
  datatype Loaded = Loaded(plugins: map<string, Plugin>, outcome: Outcome)

  /**
   * `loadPluginsManually` over the entries of an opened jar: the entries are
   * scanned in order until one raises an Error, which leaves the scan.
   */
  function ManualLoad(m: map<string, Plugin>, es: seq<JarEntry>): (loaded: Loaded)
    ensures loaded.outcome != Threw
  {
    var vs := Judged(es);
    var k := FirstError(vs);
    Loaded(ManualScan(m, vs[..k]), if k < |vs| then Errored else Returned)
  }

  /** The manual scan ends with an Error exactly when some entry raises one. */
  lemma ManualLoadErrors(m: map<string, Plugin>, es: seq<JarEntry>)
    ensures ManualLoad(m, es).outcome == Errored <==> exists i :: 0 <= i < |es| && Escapes(es[i])
  {
    var vs := Judged(es);
    var k := FirstError(vs);
    if k < |es| {
      JudgedAt(es, k);
    } else {
      forall i | 0 <= i < |es|
        ensures !Escapes(es[i])
      {
        JudgedAt(es, i);
      }
    }
  }

  /** Some load of the jar can raise an Error: its service pass, or an entry of its manual scan. */
  predicate MayError(jar: Jar) {
    jar.services.ServiceError?
    || (jar.entries.Some? && exists i :: 0 <= i < |jar.entries.value| && Escapes(jar.entries.value[i]))
  }

  /**
   * `loadPluginFromJar`: the ServiceLoader pass, then the manual scan when that
   * pass registered nothing new. An Error of the pass leaves at once. A jar
   * that cannot be opened makes the manual scan throw; the handler of the pass
   * runs it again, which throws again. What was registered before stays.
   */
  function LoadJar(m: map<string, Plugin>, jar: Jar): (loaded: Loaded) {
    var afterServices := RegisterAll(m, Yielded(jar.services));
    if jar.services.ServiceError? then Loaded(afterServices, Errored)
    else if NewCount(m, jar.services.plugins) > 0 then Loaded(afterServices, Returned)
    else if jar.entries.None? then Loaded(afterServices, Threw)
    else ManualLoad(afterServices, jar.entries.value)
  }

  /**
   * Loading a jar keeps every plugin already registered and the registry
   * keyed by name. It throws exactly when the manual scan is needed and the
   * jar cannot be opened, and an Error leaves it exactly when the service pass
   * raises one, or the manual scan is needed and one of its entries does.
   */
  lemma LoadJarProps(m: map<string, Plugin>, jar: Jar)
    ensures var r := LoadJar(m, jar);
      (forall n :: n in m ==> n in r.plugins && r.plugins[n] == m[n])
      && (Keyed(m) ==> Keyed(r.plugins))
      && (r.outcome == Threw <==> jar.services.Services? && NewCount(m, jar.services.plugins) == 0 && jar.entries.None?)
      && (r.outcome == Errored <==> jar.services.ServiceError? || (NewCount(m, jar.services.plugins) == 0 && MayError(jar)))
  {
    var afterServices := RegisterAll(m, Yielded(jar.services));
    RegisterAllKeeps(m, Yielded(jar.services));
    if jar.entries.Some? {
      var es := jar.entries.value;
      var vs := Judged(es);
      RegisterAllKeeps(afterServices, Offers(vs[..FirstError(vs)]));
      ManualLoadErrors(afterServices, es);
    }
  }

  /**
   * A service pass whose every plugin is a duplicate still leads to the manual
   * scan, which then starts from the registry as it was.
   */
  lemma DuplicatesScanManually(m: map<string, Plugin>, ps: seq<Plugin>, es: seq<JarEntry>)
    requires Names(ps) <= m.Keys
    ensures LoadJar(m, Jar(Services(ps), Some(es))) == ManualLoad(m, es)
  {
    NewCountZero(m, ps);
  }

  /** The name filter of the directory listing: ends in ".jar", in any case. */
  predicate IsJarName(name: string) {
    EndsWith(Lower(name), ".jar")
  }

  /** `listFiles` with the ".jar" filter: the jar files, in listing order. */
  function JarsOnly(files: seq<JarFile>): (r: seq<JarFile>)
    ensures forall i :: 0 <= i < |r| ==> r[i] in files && IsJarName(r[i].name)
    ensures forall i :: 0 <= i < |files| && IsJarName(files[i].name) ==> files[i] in r
    ensures |r| <= |files|
  {
    if files == [] then []
    else JarsOnly(files[..|files| - 1]) + (if IsJarName(files[|files| - 1].name) then [files[|files| - 1]] else [])
  }

  /** The registry: plugins by name and the jar files loaded. */
  datatype Registry = Registry(plugins: map<string, Plugin>, jarFiles: set<string>)

  /** The batch scan so far: the registry, and whether an Error left the scan and ended it. */
  datatype Scan = Scan(registry: Registry, aborted: bool)

  /**
   * One jar of the batch scan: skipped when its name was loaded before;
   * otherwise loaded, and its name recorded only when the load returned
   * normally. An exception is caught and the scan goes on; an Error ends it.
   */
  function BatchStep(st: Registry, f: JarFile): (after: Scan) {
    if f.name in st.jarFiles then Scan(st, false)
    else
      var r := LoadJar(st.plugins, f.jar);
      Scan(Registry(r.plugins, if r.outcome == Returned then st.jarFiles + {f.name} else st.jarFiles), r.outcome == Errored)
  }

  /** The loop of `loadExternalGames` over the jar files, up to the first Error. */
  function Batch(st: Registry, files: seq<JarFile>): (after: Scan) {
    if files == [] then Scan(st, false)
    else
      var s := Batch(st, files[..|files| - 1]);
      if s.aborted then s else BatchStep(s.registry, files[|files| - 1])
  }

  /** A batch over a concatenation is a batch over each part in turn, unless the first part ended it. */
  lemma {:induction false} BatchAppend(st: Registry, a: seq<JarFile>, b: seq<JarFile>)
    ensures Batch(st, a + b) == if Batch(st, a).aborted then Batch(st, a) else Batch(Batch(st, a).registry, b)
  {
    if b == [] {
      assert a + b == a;
    } else {
      assert (a + b)[..|a + b| - 1] == a + b[..|b| - 1];
      BatchAppend(st, a, b[..|b| - 1]);
    }
  }

  /**
   * The batch keeps the plugins registered before, keeps the registry keyed
   * by name, records no name but those of the files it was given, and ends
   * early only at a jar that can raise an Error.
   */
  lemma {:induction false} BatchProps(st: Registry, files: seq<JarFile>)
    ensures var r := Batch(st, files).registry;
      (forall n :: n in st.plugins ==> n in r.plugins && r.plugins[n] == st.plugins[n])
      && (Keyed(st.plugins) ==> Keyed(r.plugins))
      && st.jarFiles <= r.jarFiles
      && (forall n :: n in r.jarFiles && n !in st.jarFiles ==> exists i :: 0 <= i < |files| && files[i].name == n)
    ensures Batch(st, files).aborted ==> exists i :: 0 <= i < |files| && MayError(files[i].jar)
  {
    if files != [] {
      var front, last := files[..|files| - 1], files[|files| - 1];
      BatchProps(st, front);
      var sf := Batch(st, front);
      var rf := sf.registry;
      LoadJarProps(rf.plugins, last.jar);
      var s := Batch(st, files);
      var r := s.registry;
      forall n | n in r.jarFiles && n !in st.jarFiles ensures exists i :: 0 <= i < |files| && files[i].name == n {
        if n in rf.jarFiles {
          var i :| 0 <= i < |front| && front[i].name == n;
          assert files[i] == front[i];
        } else {
          assert files[|files| - 1] == last;
        }
      }
      if s.aborted {
        if sf.aborted {
          var i :| 0 <= i < |front| && MayError(front[i].jar);
          assert files[i] == front[i];
        } else {
          assert MayError(files[|files| - 1].jar);
        }
      }
    }
  }

  /**
   * A jar whose service pass raises an Error ends the batch: no later jar is
   * loaded, and neither its name nor any later one is recorded.
   */
  lemma ErrorEndsBatch(st: Registry, a: seq<JarFile>, f: JarFile, b: seq<JarFile>)
    requires !Batch(st, a).aborted && f.name !in Batch(st, a).registry.jarFiles && f.jar.services.ServiceError?
    ensures Batch(st, a + [f] + b).aborted
    ensures Batch(st, a + [f] + b).registry.jarFiles == Batch(st, a).registry.jarFiles
  {
    var r := Batch(st, a).registry;
    BatchAppend(st, a, [f]);
    assert [f][..0] == [];
    BatchAppend(st, a + [f], b);
  }

  /** Files whose names were all loaded before are all skipped. */
  lemma {:induction false} BatchSkipsLoaded(st: Registry, files: seq<JarFile>)
    requires forall i :: 0 <= i < |files| ==> files[i].name in st.jarFiles
    ensures Batch(st, files) == Scan(st, false)
  {
    if files != [] {
      BatchSkipsLoaded(st, files[..|files| - 1]);
      assert files[|files| - 1].name in st.jarFiles;
    }
  }

  /** What a directory watch reports. */
  datatype WatchKind = EntryCreate | EntryModify | EntryDelete | Overflow

  /** One watch event: the kind, the file name, whether the file exists now, and its content. */
  datatype WatchEvent = WatchEvent(kind: WatchKind, fileName: string, fileExists: bool, jar: Jar)

  /** The watcher loads a created or modified jar that exists and was not loaded before. */
  predicate ShouldLoad(ev: WatchEvent, jarFiles: set<string>) {
    (ev.kind == EntryCreate || ev.kind == EntryModify)
    && IsJarName(ev.fileName) && ev.fileExists && ev.fileName !in jarFiles
  }

  /** After one event: the registry, whether the callback was queued, and whether an Error left the handler. */
  datatype Watched = Watched(registry: Registry, notified: bool, errored: bool)

  /** The watcher's handling of one event. */
  function WatchStep(st: Registry, ev: WatchEvent, callbackSet: bool): (watched: Watched) {
    if !ShouldLoad(ev, st.jarFiles) then Watched(st, false, false)
    else
      var r := LoadJar(st.plugins, ev.jar);
      if r.outcome == Returned then Watched(Registry(r.plugins, st.jarFiles + {ev.fileName}), callbackSet, false)
      else Watched(Registry(r.plugins, st.jarFiles), false, r.outcome == Errored)
  }

  /** The watcher over the events of one key: the registry, the callbacks queued, and whether an Error ended the thread. */
  datatype WatchRun = WatchRun(registry: Registry, notifications: nat, died: bool)

  /** The events of one key, handled in order until an Error ends the watcher thread. */
  function WatchAll(st: Registry, events: seq<WatchEvent>, callbackSet: bool): (run: WatchRun) {
    if events == [] then WatchRun(st, 0, false)
    else
      var r := WatchAll(st, events[..|events| - 1], callbackSet);
      if r.died then r
      else
        var w := WatchStep(r.registry, events[|events| - 1], callbackSet);
        WatchRun(w.registry, r.notifications + (if w.notified then 1 else 0), w.errored)
  }

  /** One more event handled by a watcher that is still running. */
  lemma WatchAllNext(st: Registry, events: seq<WatchEvent>, i: int, callbackSet: bool, w: Watched)
    requires 0 <= i < |events| && !WatchAll(st, events[..i], callbackSet).died
    requires w == WatchStep(WatchAll(st, events[..i], callbackSet).registry, events[i], callbackSet)
    ensures var r := WatchAll(st, events[..i], callbackSet);
      WatchAll(st, events[..i + 1], callbackSet) == WatchRun(w.registry, r.notifications + (if w.notified then 1 else 0), w.errored)
  {
    assert events[..i + 1][..i] == events[..i];
  }

  /** Once an Error has ended the watcher thread, later events change nothing. */
  lemma {:induction false} WatchAllStops(st: Registry, a: seq<WatchEvent>, b: seq<WatchEvent>, callbackSet: bool)
    requires WatchAll(st, a, callbackSet).died
    ensures WatchAll(st, a + b, callbackSet) == WatchAll(st, a, callbackSet)
  {
    if b == [] {
      assert a + b == a;
    } else {
      assert (a + b)[..|a + b| - 1] == a + b[..|b| - 1];
      WatchAllStops(st, a, b[..|b| - 1], callbackSet);
    }
  }

  /**
   * The watcher queues at most one callback per event and none without a
   * callback, keeps every plugin registered and the keying, records only
   * names of the events' files, and dies only at a jar that can raise an Error.
   */
  lemma {:induction false} WatchAllProps(st: Registry, events: seq<WatchEvent>, callbackSet: bool)
    ensures var r := WatchAll(st, events, callbackSet);
      r.notifications <= |events| && (!callbackSet ==> r.notifications == 0)
      && (forall n :: n in st.plugins ==> n in r.registry.plugins && r.registry.plugins[n] == st.plugins[n])
      && (Keyed(st.plugins) ==> Keyed(r.registry.plugins))
      && st.jarFiles <= r.registry.jarFiles
      && (forall n :: n in r.registry.jarFiles && n !in st.jarFiles ==> exists i :: 0 <= i < |events| && events[i].fileName == n)
      && (r.died ==> exists i :: 0 <= i < |events| && MayError(events[i].jar))
  {
    if events != [] {
      var front, last := events[..|events| - 1], events[|events| - 1];
      WatchAllProps(st, front, callbackSet);
      var rf := WatchAll(st, front, callbackSet);
      LoadJarProps(rf.registry.plugins, last.jar);
      var r := WatchAll(st, events, callbackSet);
      forall n | n in r.registry.jarFiles && n !in st.jarFiles ensures exists i :: 0 <= i < |events| && events[i].fileName == n {
        if n in rf.registry.jarFiles {
          var i :| 0 <= i < |front| && front[i].fileName == n;
          assert events[i] == front[i];
        } else {
          assert events[|events| - 1] == last;
        }
      }
      if r.died {
        if rf.died {
          var i :| 0 <= i < |front| && MayError(front[i].jar);
          assert events[i] == front[i];
        } else {
          assert MayError(events[|events| - 1].jar);
        }
      }
    }
  }

  /** A jar the watcher loaded is not loaded again by a later event for it. */
  lemma WatchOnce(st: Registry, ev: WatchEvent, ev2: WatchEvent, callbackSet: bool)
    requires ev2.fileName == ev.fileName
    requires ShouldLoad(ev, st.jarFiles) && LoadJar(st.plugins, ev.jar).outcome == Returned
    ensures var after := WatchStep(st, ev, callbackSet).registry; WatchStep(after, ev2, callbackSet) == Watched(after, false, false)
  {
  }

  /** The outcome `loadPluginInteractive` shows. */
  datatype Dialog = NoDialog | LoadedMessage(fileName: string) | ErrorMessage

  class PluginLoader {
    var loadedPlugins: map<string, Plugin>
    var loadedJarFiles: set<string>
    /** Whether the watch service exists; once it does, `startDirectoryWatcher` does nothing. */
    var watcherStarted: bool
    /** Whether the watcher thread still runs: an Error or an invalid key ends it. */
    var watcherRunning: bool
    /** Whether `onPluginAdded` is set. */
    var callbackSet: bool

    ghost predicate Valid()
      reads this
    {
      Keyed(loadedPlugins) && (watcherRunning ==> watcherStarted)
    }

    ghost function State(): (state: Registry)
      reads this
    {
      Registry(loadedPlugins, loadedJarFiles)
    }

    /** The single instance: nothing loaded, no watcher, no callback. */
    constructor ()
      ensures Valid()
      ensures loadedPlugins == map[] && loadedJarFiles == {}
      ensures !watcherStarted && !watcherRunning && !callbackSet
    {
      loadedPlugins := map[];
      loadedJarFiles := {};
      watcherStarted := false;
      watcherRunning := false;
      callbackSet := false;
    }

    method SetOnPluginAddedCallback()
      modifies this
      ensures callbackSet
      ensures loadedPlugins == old(loadedPlugins) && loadedJarFiles == old(loadedJarFiles)
      ensures watcherStarted == old(watcherStarted) && watcherRunning == old(watcherRunning)
    {
      callbackSet := true;
    }

    /**
     * `loadPluginsManually`: None stands for a jar that cannot be opened, which
     * throws; otherwise the entries are scanned until one raises an Error.
     */
    method LoadPluginsManually(entries: Option<seq<JarEntry>>) returns (outcome: Outcome)
      modifies this
      ensures entries.None? ==> outcome == Threw && loadedPlugins == old(loadedPlugins)
      ensures entries.Some? ==> Loaded(loadedPlugins, outcome) == ManualLoad(old(loadedPlugins), entries.value)
      ensures loadedJarFiles == old(loadedJarFiles) && callbackSet == old(callbackSet)
      ensures watcherStarted == old(watcherStarted) && watcherRunning == old(watcherRunning)
    {
      if entries.None? {
        return Threw;
      }
      var es := entries.value;
      ghost var m := loadedPlugins;
      ghost var vs := Judged(es);
      var k := 0;
      while k < |es|
        invariant 0 <= k <= FirstError(vs)
        invariant loadedPlugins == ManualScan(m, vs[..k])
        invariant loadedJarFiles == old(loadedJarFiles) && callbackSet == old(callbackSet)
        invariant watcherStarted == old(watcherStarted) && watcherRunning == old(watcherRunning)
      {
        JudgedAt(es, k);
        assert vs[..k + 1] == vs[..k] + [vs[k]];
        ManualScanStep(m, vs[..k], vs[k]);
        var errored := ScanEntry(es[k]);
        if errored {
          assert FirstError(vs) == k;
          return Errored;
        }
        k := k + 1;
      }
      assert FirstError(vs) == |vs|;
      return Returned;
    }

    /**
     * One turn of the loop of `loadPluginsManually`: the entry's computed
     * class name is tested, and an instance registered unless its name is
     * taken; `errored` says an Error left the loop.
     */
    method ScanEntry(entry: JarEntry) returns (errored: bool)
      modifies this
      ensures errored == (Judge(entry) == Escape)
      ensures loadedPlugins == if Judge(entry).Offer? then Register(old(loadedPlugins), Judge(entry).plugin) else old(loadedPlugins)
      ensures loadedJarFiles == old(loadedJarFiles) && callbackSet == old(callbackSet)
      ensures watcherStarted == old(watcherStarted) && watcherRunning == old(watcherRunning)
    {
      errored := false;
      if EndsWith(entry.name, ".class") && '$' !in entry.name {
        var className := ClassNameAsWritten(entry.name);
        if !(StartsWith(className, "META-INF") || '$' in className) {
          match entry.outcome
          case Instance(plugin) =>
            var gameName := plugin.GetGameName();
            if gameName !in loadedPlugins {
              loadedPlugins := loadedPlugins[gameName := plugin];
            }
          case LoadErrors =>
            errored := true;
          case _ =>
        }
      }
    }

    /**
     * `loadPluginFromJar`: the service pass, then the manual scan when the pass
     * registered nothing. An Error of the pass leaves at once; when the manual
     * scan throws, the handler of the pass runs it a second time.
     */
    method LoadPluginFromJar(jar: Jar) returns (outcome: Outcome)
      requires Valid()
      modifies this
      ensures Valid()
      ensures Loaded(loadedPlugins, outcome) == LoadJar(old(loadedPlugins), jar)
      ensures loadedJarFiles == old(loadedJarFiles) && callbackSet == old(callbackSet)
      ensures watcherStarted == old(watcherStarted) && watcherRunning == old(watcherRunning)
    {
      LoadJarProps(loadedPlugins, jar);
      var loadedCount := RegisterServices(Yielded(jar.services));
      if jar.services.ServiceError? {
        return Errored;
      }
      if loadedCount == 0 {
        outcome := LoadPluginsManually(jar.entries);
        if outcome == Threw {
          outcome := LoadPluginsManually(jar.entries);
        }
      } else {
        outcome := Returned;
      }
    }

    /** The ServiceLoader loop of `loadPluginFromJar`: `loadedCount` counts the plugins registered. */
    method RegisterServices(yielded: seq<Plugin>) returns (loadedCount: nat)
      modifies this
      ensures loadedPlugins == RegisterAll(old(loadedPlugins), yielded)
      ensures loadedCount == NewCount(old(loadedPlugins), yielded)
      ensures loadedJarFiles == old(loadedJarFiles) && callbackSet == old(callbackSet)
      ensures watcherStarted == old(watcherStarted) && watcherRunning == old(watcherRunning)
    {
      loadedCount := 0;
      for i := 0 to |yielded|
        invariant loadedPlugins == RegisterAll(old(loadedPlugins), yielded[..i])
        invariant loadedCount == NewCount(old(loadedPlugins), yielded[..i])
        invariant loadedJarFiles == old(loadedJarFiles) && callbackSet == old(callbackSet)
        invariant watcherStarted == old(watcherStarted) && watcherRunning == old(watcherRunning)
      {
        var plugin := yielded[i];
        assert yielded[..i + 1][..i] == yielded[..i];
        var gameName := plugin.GetGameName();
        if gameName !in loadedPlugins {
          loadedPlugins := loadedPlugins[gameName := plugin];
          loadedCount := loadedCount + 1;
        }
      }
      assert yielded[..|yielded|] == yielded;
    }

    /**
     * One turn of the `loadExternalGames` loop: a jar not loaded before is
     * loaded, and recorded when that returns normally; `aborted` says an
     * Error left the loop.
     */
    method ScanJarFile(jarFile: JarFile) returns (aborted: bool)
      requires Valid()
      modifies this
      ensures Valid()
      ensures Scan(State(), aborted) == BatchStep(old(State()), jarFile)
      ensures callbackSet == old(callbackSet)
      ensures watcherStarted == old(watcherStarted) && watcherRunning == old(watcherRunning)
    {
      aborted := false;
      if jarFile.name !in loadedJarFiles {
        var outcome := LoadPluginFromJar(jarFile.jar);
        if outcome == Returned {
          loadedJarFiles := loadedJarFiles + {jarFile.name};
        }
        aborted := outcome == Errored;
      }
    }

    /** `startDirectoryWatcher`: the watch service and its thread, once. */
    method StartDirectoryWatcher()
      requires Valid()
      modifies this
      ensures Valid() && watcherStarted
      ensures watcherRunning == (old(watcherRunning) || !old(watcherStarted))
      ensures loadedPlugins == old(loadedPlugins) && loadedJarFiles == old(loadedJarFiles)
      ensures callbackSet == old(callbackSet)
    {
      if watcherStarted {
        return;
      }
      watcherStarted := true;
      watcherRunning := true;
    }

    /**
     * `loadExternalGames`: every jar of the listing not loaded before is
     * loaded, and its name recorded when that returns normally; then the
     * watcher is started. An Error ends the loop and leaves the method, so
     * that later jars are not loaded and the watcher is not started.
     */
    method LoadExternalGames(files: seq<JarFile>) returns (aborted: bool)
      requires Valid()
      modifies this
      ensures Valid()
      ensures Scan(State(), aborted) == Batch(old(State()), JarsOnly(files))
      ensures aborted ==> watcherStarted == old(watcherStarted) && watcherRunning == old(watcherRunning)
      ensures !aborted ==> watcherStarted && watcherRunning == (old(watcherRunning) || !old(watcherStarted))
      ensures callbackSet == old(callbackSet)
    {
      aborted := ScanAll(JarsOnly(files));
      if !aborted {
        StartDirectoryWatcher();
      }
    }

    /** The loop of `loadExternalGames` over the jar files, left at the first Error. */
    method ScanAll(jarFiles: seq<JarFile>) returns (aborted: bool)
      requires Valid()
      modifies this
      ensures Valid()
      ensures Scan(State(), aborted) == Batch(old(State()), jarFiles)
      ensures callbackSet == old(callbackSet)
      ensures watcherStarted == old(watcherStarted) && watcherRunning == old(watcherRunning)
    {
      aborted := false;
      var i := 0;
      while i < |jarFiles|
        invariant 0 <= i <= |jarFiles| && Valid()
        invariant Scan(State(), false) == Batch(old(State()), jarFiles[..i])
        invariant callbackSet == old(callbackSet)
        invariant watcherStarted == old(watcherStarted) && watcherRunning == old(watcherRunning)
      {
        assert jarFiles[..i + 1][..i] == jarFiles[..i];
        aborted := ScanJarFile(jarFiles[i]);
        if aborted {
          BatchAppend(old(State()), jarFiles[..i + 1], jarFiles[i + 1..]);
          assert jarFiles[..i + 1] + jarFiles[i + 1..] == jarFiles;
          return;
        }
        i := i + 1;
      }
      assert jarFiles[..|jarFiles|] == jarFiles;
    }

    /**
     * The watcher's handling of one event: `notified` says `onPluginAdded`
     * was queued, `errored` that an Error left the handler.
     */
    method OnWatchEvent(ev: WatchEvent) returns (notified: bool, errored: bool)
      requires Valid()
      modifies this
      ensures Valid()
      ensures Watched(State(), notified, errored) == WatchStep(old(State()), ev, callbackSet)
      ensures callbackSet == old(callbackSet)
      ensures watcherStarted == old(watcherStarted) && watcherRunning == old(watcherRunning)
    {
      notified, errored := false, false;
      if (ev.kind == EntryCreate || ev.kind == EntryModify) && EndsWith(Lower(ev.fileName), ".jar") {
        if ev.fileExists && ev.fileName !in loadedJarFiles {
          var outcome := LoadPluginFromJar(ev.jar);
          if outcome == Returned {
            loadedJarFiles := loadedJarFiles + {ev.fileName};
            notified := callbackSet;
          }
          errored := outcome == Errored;
        }
      }
    }

    /**
     * The watcher thread over the events of one key, in order;
     * `notifications` counts the callbacks queued. An Error ends the thread
     * at once; otherwise the thread goes on only while `reset` finds the key
     * valid. A thread that has ended handles nothing.
     */
    method OnWatchKey(events: seq<WatchEvent>, keyValid: bool) returns (notifications: nat)
      requires Valid()
      modifies this
      ensures Valid()
      ensures !old(watcherRunning) ==> notifications == 0 && unchanged(this)
      ensures old(watcherRunning) ==>
        var run := WatchAll(old(State()), events, callbackSet);
        State() == run.registry && notifications == run.notifications && watcherRunning == (!run.died && keyValid)
      ensures callbackSet == old(callbackSet) && watcherStarted == old(watcherStarted)
    {
      notifications := 0;
      if !watcherRunning {
        return;
      }
      var died;
      notifications, died := WatchEvents(events);
      if died || !keyValid {
        watcherRunning := false;
      }
    }

    /** The event loop of the watcher thread for one key, left at the first Error. */
    method WatchEvents(events: seq<WatchEvent>) returns (notifications: nat, died: bool)
      requires Valid()
      modifies this
      ensures Valid()
      ensures WatchAll(old(State()), events, callbackSet) == WatchRun(State(), notifications, died)
      ensures callbackSet == old(callbackSet)
      ensures watcherStarted == old(watcherStarted) && watcherRunning == old(watcherRunning)
    {
      notifications, died := 0, false;
      var i := 0;
      while i < |events|
        invariant 0 <= i <= |events| && Valid()
        invariant WatchAll(old(State()), events[..i], callbackSet) == WatchRun(State(), notifications, false)
        invariant callbackSet == old(callbackSet)
        invariant watcherStarted == old(watcherStarted) && watcherRunning == old(watcherRunning)
      {
        var notified, errored := OnWatchEvent(events[i]);
        WatchAllNext(old(State()), events, i, callbackSet, Watched(State(), notified, errored));
        if notified {
          notifications := notifications + 1;
        }
        if errored {
          died := true;
          WatchAllStops(old(State()), events[..i + 1], events[i + 1..], callbackSet);
          assert events[..i + 1] + events[i + 1..] == events;
          return;
        }
        i := i + 1;
      }
      assert events[..|events|] == events;
    }

    /**
     * `getLoadedPlugins`: a new list of the registered plugins, each once, in
     * some order of the map.
     */
    method GetLoadedPlugins() returns (plugins: seq<Plugin>)
      requires Valid()
      ensures |plugins| == |loadedPlugins| && NoDuplicates(plugins)
      ensures forall p :: p in plugins <==> p in loadedPlugins.Values
    {
      plugins := [];
      ghost var names: seq<string> := [];
      var rest := loadedPlugins.Keys;
      while rest != {}
        invariant rest <= loadedPlugins.Keys
        invariant forall n :: n in loadedPlugins ==> (n in rest <==> n !in names)
        invariant |plugins| == |names| && |names| + |rest| == |loadedPlugins|
        invariant forall j :: 0 <= j < |names| ==> names[j] in loadedPlugins && plugins[j] == loadedPlugins[names[j]]
        invariant NoDuplicates(plugins)
        decreases |rest|
      {
        var n :| n in rest;
        assert forall j :: 0 <= j < |plugins| ==> plugins[j].GetGameName() == names[j] != n;
        plugins := plugins + [loadedPlugins[n]];
        names := names + [n];
        rest := rest - {n};
      }
      forall p | p in loadedPlugins.Values ensures p in plugins {
        var n :| n in loadedPlugins && loadedPlugins[n] == p;
        var j :| 0 <= j < |names| && names[j] == n;
        assert plugins[j] == p;
      }
    }

    /** `hasPlugins`: some plugin is registered. */
    function HasPlugins(): (r: bool)
      reads this
      ensures r <==> exists n :: n in loadedPlugins
    {
      loadedPlugins != map[]
    }

    /**
     * `loadPluginInteractive`: a chosen file is copied into the plugins
     * directory and loaded; its name is not recorded among the loaded jars.
     * An exception shows the error dialog; an Error leaves the method before
     * any dialog, which `errored` records.
     */
    method LoadPluginInteractive(approved: bool, selected: JarFile, copySucceeds: bool) returns (dialog: Dialog, errored: bool)
      requires Valid()
      modifies this
      ensures Valid()
      ensures !approved ==> dialog == NoDialog && !errored && loadedPlugins == old(loadedPlugins)
      ensures approved && !copySucceeds ==> dialog == ErrorMessage && !errored && loadedPlugins == old(loadedPlugins)
      ensures approved && copySucceeds ==>
        var r := LoadJar(old(loadedPlugins), selected.jar);
        loadedPlugins == r.plugins && (errored <==> r.outcome == Errored)
        && dialog == (if r.outcome == Returned then LoadedMessage(selected.name)
                      else if r.outcome == Threw then ErrorMessage else NoDialog)
      ensures loadedJarFiles == old(loadedJarFiles) && callbackSet == old(callbackSet)
      ensures watcherStarted == old(watcherStarted) && watcherRunning == old(watcherRunning)
    {
      dialog, errored := NoDialog, false;
      if approved {
        if !copySucceeds {
          dialog := ErrorMessage;
          return;
        }
        var outcome := LoadPluginFromJar(selected.jar);
        if outcome == Errored {
          errored := true;
        } else {
          dialog := if outcome == Returned then LoadedMessage(selected.name) else ErrorMessage;
        }
      }
    }
  }
}
