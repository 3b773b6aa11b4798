/** Layering `.env` files into the environment (cli/main.py): which file each value comes from, how API id
    and hash are kept together, and how the root directory that one file names decides which other files
    are read. */
module DotenvLayers {
  import opened Common
  import opened OrderedDicts

  type Env = map<string, string>

  /** A parsed file: its keys in file order. */
  type Source = s: ODict<string, string> | s.Ok() witness ODict([], map[])

  /** A file's path. */
  type Path = int

  const API_ID := "TG_API_ID"
  const API_HASH := "TG_API_HASH"
  const TG_HOME := "TG_HOME"

  predicate InPair(key: string) {
    key == API_ID || key == API_HASH
  }

  /** The file system as the loader sees it: parsed files, the `.env` of the root a TG_HOME value selects
      (none given, a default or a legacy root), the fixed fallback, and what counts as a blank value. */
  datatype Disk = Disk(files: Path -> Source, rootEnv: Option<string> -> Path, fallback: Path, blank: string -> bool)

  function Get(vals: map<string, string>, k: string): Option<string> {
    if k in vals then Some(vals[k]) else None
  }

  function Or<T>(a: Option<T>, b: Option<T>): Option<T> {
    if a.Some? then a else b
  }

  function Home(env: Env): Option<string> {
    Get(env, TG_HOME)
  }

  // --- one source -----------------------------------------------------------------------------------------

  predicate HasPair(d: Disk, s: Source) {
    && API_ID in s.vals && !d.blank(s.vals[API_ID])
    && API_HASH in s.vals && !d.blank(s.vals[API_HASH])
  }

  predicate PairUntouched(env: Env) {
    API_ID !in env && API_HASH !in env
  }

  function WithPair(d: Disk, env: Env, s: Source): Env {
    if PairUntouched(env) && HasPair(d, s) then env[API_ID := s.vals[API_ID]][API_HASH := s.vals[API_HASH]] else env
  }

  function SetDefault(env: Env, key: string, value: string): Env {
    if key in env then env else env[key := value]
  }

  function Defaults(env: Env, s: Source, keys: seq<string>): Env
    requires forall k | k in keys :: k in s.vals
    decreases |keys|
  {
    if keys == [] then env
    else
      assert forall k | k in keys[1..] :: k in keys;
      Defaults(if InPair(keys[0]) then env else SetDefault(env, keys[0], s.vals[keys[0]]), s, keys[1..])
  }

  function Apply(d: Disk, env: Env, s: Source): Env
  {
    Defaults(WithPair(d, env, s), s, s.keys)
  }

  lemma {:induction false} DefaultsAre(env: Env, s: Source, keys: seq<string>, k: string)
    requires forall k | k in keys :: k in s.vals
    ensures var e := Defaults(env, s, keys);
            && (k in e <==> k in env || (k in keys && !InPair(k)))
            && (k in e ==> e[k] == if k in env then env[k] else s.vals[k])
    decreases |keys|
  {
    if keys != [] {
      assert forall k | k in keys[1..] :: k in keys;
      assert keys == [keys[0]] + keys[1..];
      DefaultsAre(if InPair(keys[0]) then env else SetDefault(env, keys[0], s.vals[keys[0]]), s, keys[1..], k);
    }
  }

  /** One source: the pair comes whole or not at all, every other key only where none was set. */
  lemma ApplyIs(d: Disk, env: Env, s: Source, k: string)
    ensures var e := Apply(d, env, s);
            Get(e, k) == if !InPair(k) then Or(Get(env, k), Get(s.vals, k))
                         else if PairUntouched(env) && HasPair(d, s) then Get(s.vals, k)
                         else Get(env, k)
  {
    DefaultsAre(WithPair(d, env, s), s, s.keys, k);
  }

  // --- several sources --------------------------------------------------------------------------------------

  function ApplyAll(d: Disk, env: Env, paths: seq<Path>): Env
    decreases |paths|
  {
    if paths == [] then env else ApplyAll(d, Apply(d, env, d.files(paths[0])), paths[1..])
  }

  /** The value of the first file that has the key. */
  function FirstValue(d: Disk, paths: seq<Path>, k: string): Option<string> {
    if paths == [] then None else Or(Get(d.files(paths[0]).vals, k), FirstValue(d, paths[1..], k))
  }

  /** Id and hash, if the file has both and neither is blank. */
  function PairOf(d: Disk, s: Source): Option<(string, string)> {
    var id, hash := Get(s.vals, "TG_API_ID"), Get(s.vals, "TG_API_HASH");
    if id.Some? && hash.Some? && !d.blank(id.value) && !d.blank(hash.value) then Some((id.value, hash.value)) else None
  }

  function FirstPair(d: Disk, paths: seq<Path>): Option<(string, string)> {
    if paths == [] then None else Or(PairOf(d, d.files(paths[0])), FirstPair(d, paths[1..]))
  }

  /** Every key outside the pair takes its first value in precedence order, the environment's own first. */
  lemma {:induction false} FirstValueWins(d: Disk, env: Env, paths: seq<Path>, k: string)
    requires !InPair(k)
    ensures Get(ApplyAll(d, env, paths), k) == Or(Get(env, k), FirstValue(d, paths, k))
    decreases |paths|
  {
    if paths != [] {
      ApplyIs(d, env, d.files(paths[0]), k);
      FirstValueWins(d, Apply(d, env, d.files(paths[0])), paths[1..], k);
    }
  }

  /** What the environment has of the pair, once these two are what the files offer: an environment with
      either half keeps what it has, and one with neither takes both or none. */
  ghost predicate Paired(env: Env, offer: Option<(string, string)>, e: Env) {
    var id, hash := "TG_API_ID", "TG_API_HASH";
    if id !in env && hash !in env && offer.Some? then
      Get(e, id) == Some(offer.value.0) && Get(e, hash) == Some(offer.value.1)
    else Get(e, id) == Get(env, id) && Get(e, hash) == Get(env, hash)
  }

  /** The two halves are never from different sources. */
  lemma {:induction false} ThePairIsWhole(d: Disk, env: Env, paths: seq<Path>)
    ensures Paired(env, FirstPair(d, paths), ApplyAll(d, env, paths))
    decreases |paths|
  {
    if paths != [] {
      ApplyIs(d, env, d.files(paths[0]), API_ID);
      ApplyIs(d, env, d.files(paths[0]), API_HASH);
      ThePairIsWhole(d, Apply(d, env, d.files(paths[0])), paths[1..]);
    }
  }

  // --- the loader ---------------------------------------------------------------------------------------------

  /** The home file that names the root, if the environment does not and one of the two has the key. */
  function Redirecting(d: Disk, env: Env): Option<Path> {
    if TG_HOME in env then None
    else if TG_HOME in d.files(d.rootEnv(None)).vals then Some(d.rootEnv(None))
    else if TG_HOME in d.files(d.fallback).vals then Some(d.fallback)
    else None
  }

  /** The environment once the root is settled. */
  function Settled(d: Disk, env: Env): Env {
    var r := Redirecting(d, env);
    if r.Some? then env[TG_HOME := d.files(r.value).vals[TG_HOME]] else env
  }

  /** The files of the second pass, in order and each once. */
  function Fresh(paths: seq<Path>, applied: seq<Path>): seq<Path>
    decreases |paths|
  {
    if paths == [] then []
    else if paths[0] in applied then Fresh(paths[1..], applied)
    else [paths[0]] + Fresh(paths[1..], applied + [paths[0]])
  }

  function Candidates(d: Disk, env: Env): seq<Path> {
    var r := Redirecting(d, env);
    [d.rootEnv(Home(Settled(d, env)))] + (if r.Some? then [r.value] else []) + [d.fallback]
  }

  function Load(d: Disk, env: Env, cwd: Path): Env
  {
    var first := Apply(d, env, d.files(cwd));
    ApplyAll(d, Settled(d, first), Fresh(Candidates(d, first), [cwd]))
  }

  /** Leaving out what has been applied changes nothing for a key that none of that has. */
  lemma {:induction false} FreshValue(d: Disk, paths: seq<Path>, applied: seq<Path>, k: string)
    requires forall p | p in applied :: k !in d.files(p).vals
    ensures FirstValue(d, Fresh(paths, applied), k) == FirstValue(d, paths, k)
    decreases |paths|
  {
    if paths != [] {
      if paths[0] in applied || k !in d.files(paths[0]).vals {
        FreshValue(d, paths[1..], if paths[0] in applied then applied else applied + [paths[0]], k);
      }
      var rest := Fresh(paths[1..], applied + [paths[0]]);
      assert ([paths[0]] + rest)[1..] == rest;
    }
  }

  lemma {:induction false} FreshPair(d: Disk, paths: seq<Path>, applied: seq<Path>)
    requires forall p | p in applied :: !HasPair(d, d.files(p))
    ensures FirstPair(d, Fresh(paths, applied)) == FirstPair(d, paths)
    decreases |paths|
  {
    if paths != [] {
      if paths[0] in applied || !HasPair(d, d.files(paths[0])) {
        FreshPair(d, paths[1..], if paths[0] in applied then applied else applied + [paths[0]]);
      }
      var rest := Fresh(paths[1..], applied + [paths[0]]);
      assert ([paths[0]] + rest)[1..] == rest;
    }
  }

  /** Settling changes nothing but TG_HOME, and never a TG_HOME that is there. */
  lemma SettledIs(d: Disk, env: Env, k: string)
    ensures k != TG_HOME || k in env ==> Get(Settled(d, env), k) == Get(env, k)
  {
  }

  /** Some home file names the root: the environment does not, nor does the current directory's file, and
      the file of the root there would be otherwise has the key. */
  ghost predicate RootNamesAnother(d: Disk, env: Env, cwd: Path) {
    && "TG_HOME" !in env && "TG_HOME" !in d.files(cwd).vals
    && "TG_HOME" in d.files(d.rootEnv(None)).vals
  }

  /** What the files a pass after the first reads offer. */
  lemma CandidatesOffer(d: Disk, env: Env, cwd: Path, root: Path, k: string)
    requires root == d.rootEnv(Home(Settled(d, Apply(d, env, d.files(cwd)))))
    ensures var paths, fallback := Candidates(d, Apply(d, env, d.files(cwd))), d.fallback;
            var named := if RootNamesAnother(d, env, cwd) then [d.rootEnv(None)] else [];
            && FirstValue(d, paths, k) == FirstValue(d, [root] + named + [fallback], k)
            && FirstPair(d, paths) == FirstPair(d, [root] + named + [fallback])
  {
    var first := Apply(d, env, d.files(cwd));
    ApplyIs(d, env, d.files(cwd), TG_HOME);
    var r := Redirecting(d, first);
    if r == Some(d.fallback) && !RootNamesAnother(d, env, cwd) {
      TwiceIsOnce(d, root, d.fallback, k);
    }
  }

  lemma TwiceIsOnce(d: Disk, root: Path, last: Path, k: string)
    ensures FirstValue(d, [root] + [last] + [last], k) == FirstValue(d, [root] + [last], k)
    ensures FirstPair(d, [root] + [last] + [last]) == FirstPair(d, [root] + [last])
  {
    assert ([root] + [last] + [last])[1..] == [last] + [last];
    assert ([root] + [last])[1..] == [last];
  }

  lemma Chain(d: Disk, a: Path, b: Path, c: Path, k: string)
    ensures FirstValue(d, [a] + [] + [c], k) == Or(Get(d.files(a).vals, k), Get(d.files(c).vals, k))
    ensures FirstValue(d, [a] + [b] + [c], k)
            == Or(Get(d.files(a).vals, k), Or(Get(d.files(b).vals, k), Get(d.files(c).vals, k)))
    ensures FirstPair(d, [a] + [] + [c]) == Or(PairOf(d, d.files(a)), PairOf(d, d.files(c)))
    ensures FirstPair(d, [a] + [b] + [c])
            == Or(PairOf(d, d.files(a)), Or(PairOf(d, d.files(b)), PairOf(d, d.files(c))))
  {
    assert [a] + [] + [c] == [a] + [c] && ([a] + [c])[1..] == [c];
    assert FirstValue(d, [c], k) == Get(d.files(c).vals, k) && FirstPair(d, [c]) == PairOf(d, d.files(c));
    assert ([a] + [b] + [c])[1..] == [b] + [c];
    assert ([b] + [c])[1..] == [c];
  }

  /** The root: the environment's, else what the current directory's file says, else the file of the root
      there is without one, else the fallback. It is settled before any home file's values apply. */
  lemma TheRootIsSettledFirst(d: Disk, env: Env, cwd: Path)
    ensures Get(Load(d, env, cwd), "TG_HOME")
            == Or(Get(env, "TG_HOME"), Or(Get(d.files(cwd).vals, "TG_HOME"),
               Or(Get(d.files(d.rootEnv(None)).vals, "TG_HOME"), Get(d.files(d.fallback).vals, "TG_HOME"))))
    ensures Home(Load(d, env, cwd)) == Home(Settled(d, Apply(d, env, d.files(cwd))))
  {
    var first := Apply(d, env, d.files(cwd));
    var settled, paths := Settled(d, first), Candidates(d, first);
    ApplyIs(d, env, d.files(cwd), TG_HOME);
    FirstValueWins(d, settled, Fresh(paths, [cwd]), TG_HOME);
    if TG_HOME !in settled {
      FreshValue(d, paths, [cwd], TG_HOME);
      Chain(d, d.rootEnv(None), d.fallback, d.fallback, TG_HOME);
    }
  }

  /** The whole load, key by key: the environment wins, then the current directory's file, then the file
      of the root in force at the end, then the file of the root before, if that is what named another,
      and last the fixed fallback. */
  lemma LoadFollowsPrecedence(d: Disk, env: Env, cwd: Path, k: string)
    requires k != "TG_API_ID" && k != "TG_API_HASH" && k != "TG_HOME"
    ensures var e, file := Load(d, env, cwd), (p: Path) => Get(d.files(p).vals, k);
            Get(e, k)
            == Or(Get(env, k), Or(file(cwd), Or(file(d.rootEnv(Get(e, "TG_HOME"))),
               Or(if RootNamesAnother(d, env, cwd) then file(d.rootEnv(None)) else None, file(d.fallback)))))
  {
    var first, root := Apply(d, env, d.files(cwd)), d.rootEnv(Home(Load(d, env, cwd)));
    var paths := Candidates(d, first);
    ApplyIs(d, env, d.files(cwd), k);
    SettledIs(d, first, k);
    FirstValueWins(d, Settled(d, first), Fresh(paths, [cwd]), k);
    TheRootIsSettledFirst(d, env, cwd);
    if k !in d.files(cwd).vals {
      FreshValue(d, paths, [cwd], k);
      CandidatesOffer(d, env, cwd, root, k);
      Chain(d, root, d.rootEnv(None), d.fallback, k);
    }
  }

  /** The home file that named the root keeps its say: for a key that neither the environment, nor the
      current directory, nor the root's own file sets, its value wins over the fallback's. */
  lemma TheRedirectingFileOutranksTheFallback(d: Disk, env: Env, cwd: Path, r: Path, k: string)
    requires !InPair(k) && k != TG_HOME && Redirecting(d, Apply(d, env, d.files(cwd))) == Some(r)
    requires k !in env && k !in d.files(cwd).vals && k in d.files(r).vals
    requires k !in d.files(d.rootEnv(Home(Load(d, env, cwd)))).vals
    ensures k in Load(d, env, cwd) && Load(d, env, cwd)[k] == d.files(r).vals[k]
  {
    ApplyIs(d, env, d.files(cwd), TG_HOME);
    LoadFollowsPrecedence(d, env, cwd, k);
  }

  /** Both halves of the pair come from the first of the same files that has both, or stay as they were. */
  lemma LoadKeepsThePairWhole(d: Disk, env: Env, cwd: Path)
    ensures var e, pair := Load(d, env, cwd), (p: Path) => PairOf(d, d.files(p));
            Paired(env,
                   Or(pair(cwd), Or(pair(d.rootEnv(Get(e, "TG_HOME"))),
                   Or(if RootNamesAnother(d, env, cwd) then pair(d.rootEnv(None)) else None, pair(d.fallback)))),
                   e)
  {
    var first, root := Apply(d, env, d.files(cwd)), d.rootEnv(Home(Load(d, env, cwd)));
    var paths := Candidates(d, first);
    ApplyIs(d, env, d.files(cwd), API_ID);
    ApplyIs(d, env, d.files(cwd), API_HASH);
    SettledIs(d, first, API_ID);
    SettledIs(d, first, API_HASH);
    ThePairIsWhole(d, Settled(d, first), Fresh(paths, [cwd]));
    TheRootIsSettledFirst(d, env, cwd);
    if !HasPair(d, d.files(cwd)) {
      FreshPair(d, paths, [cwd]);
      CandidatesOffer(d, env, cwd, root, API_ID);
      Chain(d, root, d.rootEnv(None), d.fallback, API_ID);
    }
  }

  // --- the object --------------------------------------------------------------------------------------------

  lemma {:induction false} DefaultsSnoc(env: Env, s: Source, keys: seq<string>, k: string)
    requires (forall x | x in keys :: x in s.vals) && k in s.vals
    ensures forall x | x in keys + [k] :: x in s.vals
    ensures var e := Defaults(env, s, keys);
            Defaults(env, s, keys + [k]) == if InPair(k) then e else SetDefault(e, k, s.vals[k])
    decreases |keys|
  {
    if keys == [] {
      assert keys + [k] == [k] && [k][1..] == [];
    } else {
      assert forall x | x in keys[1..] :: x in keys;
      assert (keys + [k])[1..] == keys[1..] + [k];
      DefaultsSnoc(if InPair(keys[0]) then env else SetDefault(env, keys[0], s.vals[keys[0]]), s, keys[1..], k);
    }
  }

  /** `os.environ` under the loader. */
  class Environment {
    const d: Disk
    var vars: Env

    constructor (d: Disk, vars: Env)
      ensures this.d == d && this.vars == vars
    {
      this.d, this.vars := d, vars;
    }

    method ApplyDotenvSource(s: Source)
      modifies this
      ensures vars == Apply(d, old(vars), s)
    {
      if API_ID !in vars && API_HASH !in vars && HasPair(d, s) {
        vars := vars[API_ID := s.vals[API_ID]];
        vars := vars[API_HASH := s.vals[API_HASH]];
      }
      ghost var start := vars;
      for i := 0 to |s.keys|
        invariant forall x | x in s.keys[..i] :: x in s.vals
        invariant vars == Defaults(start, s, s.keys[..i])
      {
        var key := s.keys[i];
        DefaultsSnoc(start, s, s.keys[..i], key);
        assert s.keys[..i + 1] == s.keys[..i] + [key];
        if key != API_ID && key != API_HASH {
          if key !in vars {
            vars := vars[key := s.vals[key]];
          }
        }
      }
      assert s.keys[..|s.keys|] == s.keys;
    }

    /** The scan for a home file that names the root. */
    method SettleRoot() returns (redirecting: Option<Path>)
      modifies this
      ensures vars == Settled(d, old(vars)) && redirecting == Redirecting(d, old(vars))
    {
      redirecting := None;
      if TG_HOME !in vars {
        var candidates := [d.rootEnv(Home(vars)), d.fallback];
        for i := 0 to 2
          invariant redirecting == None && vars == old(vars)
          invariant i > 0 ==> TG_HOME !in d.files(d.rootEnv(None)).vals
          invariant i > 1 ==> TG_HOME !in d.files(d.fallback).vals
        {
          var parsed := d.files(candidates[i]);
          if TG_HOME in parsed.vals {
            vars := vars[TG_HOME := parsed.vals[TG_HOME]];
            return Some(candidates[i]);
          }
        }
      }
    }

    method LoadDotenv(cwd: Path)
      modifies this
      ensures vars == Load(d, old(vars), cwd)
    {
      ApplyDotenvSource(d.files(cwd));
      ghost var first := vars;
      var redirecting := SettleRoot();
      ghost var settled := vars;
      var candidates := [d.rootEnv(Home(vars))];
      if redirecting.Some? {
        candidates := candidates + [redirecting.value];
      }
      candidates := candidates + [d.fallback];
      assert candidates == Candidates(d, first);
      var applied := [cwd];
      for i := 0 to |candidates|
        invariant ApplyAll(d, vars, Fresh(candidates[i..], applied)) == ApplyAll(d, settled, Fresh(candidates, [cwd]))
      {
        assert candidates[i..][1..] == candidates[i + 1..];
        if candidates[i] !in applied {
          var rest := Fresh(candidates[i + 1..], applied + [candidates[i]]);
          assert ([candidates[i]] + rest)[1..] == rest;
          applied := applied + [candidates[i]];
          ApplyDotenvSource(d.files(candidates[i]));
        }
      }
    }
  }
}
