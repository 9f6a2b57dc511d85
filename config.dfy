/**
 * The configuration manager: where the configuration files are looked
 * for, how a parameter is looked up (environment first, then the file's
 * section, else nothing), how a file name is resolved (as given, then
 * under the certificates path, then under the configuration directory)
 * and how the domain section is turned into CSR paths.
 *
 * The environment is a map, the parsed configuration a map from section
 * names to their (option, value) items in file order, and the file system
 * the set of paths that name existing regular files.
 */
module Config {
  import opened Wrappers
  import Text
  import Paths

  /** A parsed configuration: section name to its items, option names already lower-cased. */
  type Ini = map<string, seq<(string, string)>>

  datatype ConfigError =
    | NoConfigFile            // none of the candidate files could be read (IndexError on config_files[0])
    | NoSection(section: string)
    | FileNotFound(filename: string)

  /**
   * The candidate configuration files by increasing priority: the system
   * file, the one in the home directory, the one in the working directory.
   */
  function DefaultConfigPath(home: string, cwd: string): (r: seq<string>)
    ensures |r| == 3 && r[0] == "/etc/acmedns.conf"
    ensures home != [] && home[|home| - 1] != '/' ==> r[1] == home + "/.acmedns.conf"
    ensures home == [] || home[|home| - 1] == '/' ==> r[1] == home + ".acmedns.conf"
    ensures cwd != [] && cwd[|cwd| - 1] != '/' ==> r[2] == cwd + "/acmedns.conf"
    ensures cwd == [] || cwd[|cwd| - 1] == '/' ==> r[2] == cwd + "acmedns.conf"
    ensures Paths.IsAbs(home) && Paths.IsAbs(cwd) ==> forall i :: 0 <= i < |r| ==> Paths.IsAbs(r[i])
  {
    assert home + "/" + ".acmedns.conf" == home + "/.acmedns.conf";
    assert cwd + "/" + "acmedns.conf" == cwd + "/acmedns.conf";
    ["/etc/acmedns.conf", Paths.Join(home, ".acmedns.conf"), Paths.AbsPath(cwd, "acmedns.conf")]
  }

  /** The files the parser managed to read, in the order they were given. */
  function ReadFiles(candidates: seq<string>, readable: set<string>): (r: seq<string>)
    ensures ReadOf(candidates, readable, r)
  {
    if candidates == [] then
      assert Selects(candidates, readable, [], []);
      []
    else
      var rest := ReadFiles(candidates[1..], readable);
      ReadStep(candidates, readable, rest);
      OrderStep(candidates, readable, rest);
      if candidates[0] in readable then [candidates[0]] + rest else rest
  }

  /**
   * `r` holds exactly the readable candidates, in the candidates' order:
   * it is the subsequence of `candidates` at some strictly increasing
   * positions, which are exactly those of the readable candidates. So it
   * is empty iff none is readable, and starts with the first readable one.
   */
  ghost predicate ReadOf(candidates: seq<string>, readable: set<string>, r: seq<string>)
  {
    (exists idx :: Selects(candidates, readable, r, idx)) && ReadFacts(candidates, readable, r)
  }

  ghost predicate ReadFacts(candidates: seq<string>, readable: set<string>, r: seq<string>)
  {
    (forall f :: f in r <==> f in candidates && f in readable) &&
    (r == [] <==> forall i :: 0 <= i < |candidates| ==> candidates[i] !in readable) &&
    (r != [] ==> exists k :: 0 <= k < |candidates| && candidates[k] == r[0] &&
                             forall j :: 0 <= j < k ==> candidates[j] !in readable)
  }

  /** `r[i]` is `candidates[idx[i]]`, `idx` increases, and it lists every readable position. */
  ghost predicate Selects(candidates: seq<string>, readable: set<string>, r: seq<string>, idx: seq<nat>)
  {
    |idx| == |r| &&
    (forall i :: 0 <= i < |idx| ==> idx[i] < |candidates| && candidates[idx[i]] == r[i]) &&
    (forall i, j :: 0 <= i < j < |idx| ==> idx[i] < idx[j]) &&
    (forall k :: 0 <= k < |candidates| && candidates[k] in readable ==> k in idx)
  }

  /** The positions one further on. */
  function Shift(idx: seq<nat>): (r: seq<nat>)
    ensures |r| == |idx| && forall i :: 0 <= i < |idx| ==> r[i] == idx[i] + 1
  {
    seq(|idx|, i requires 0 <= i < |idx| => idx[i] + 1)
  }

  /** A selection from the candidates after the first, moved one position on. */
  lemma ShiftSelects(candidates: seq<string>, readable: set<string>, rest: seq<string>, idx: seq<nat>)
    requires candidates != [] && Selects(candidates[1..], readable, rest, idx)
    ensures var sh := Shift(idx);
            |sh| == |rest| &&
            (forall i :: 0 <= i < |sh| ==> 1 <= sh[i] < |candidates| && candidates[sh[i]] == rest[i]) &&
            (forall i, j :: 0 <= i < j < |sh| ==> sh[i] < sh[j]) &&
            (forall k :: 1 <= k < |candidates| && candidates[k] in readable ==> k in sh)
  {
    var tail, sh := candidates[1..], Shift(idx);
    forall i | 0 <= i < |sh| ensures 1 <= sh[i] < |candidates| && candidates[sh[i]] == rest[i] {
      assert candidates[sh[i]] == tail[idx[i]];
    }
    forall k | 1 <= k < |candidates| && candidates[k] in readable ensures k in sh {
      assert tail[k - 1] == candidates[k];
      var i :| 0 <= i < |idx| && idx[i] == k - 1;
      assert sh[i] == k;
    }
  }

  lemma OrderStep(candidates: seq<string>, readable: set<string>, rest: seq<string>)
    requires candidates != [] && exists idx :: Selects(candidates[1..], readable, rest, idx)
    ensures candidates[0] in readable ==> exists idx :: Selects(candidates, readable, [candidates[0]] + rest, idx)
    ensures candidates[0] !in readable ==> exists idx :: Selects(candidates, readable, rest, idx)
  {
    var idx :| Selects(candidates[1..], readable, rest, idx);
    ShiftSelects(candidates, readable, rest, idx);
    var sh := Shift(idx);
    if candidates[0] in readable {
      ConsSelects(candidates, readable, rest, sh);
    } else {
      assert Selects(candidates, readable, rest, sh);
    }
  }

  lemma ConsSelects(candidates: seq<string>, readable: set<string>, rest: seq<string>, sh: seq<nat>)
    requires candidates != [] && candidates[0] in readable && |sh| == |rest|
    requires forall i :: 0 <= i < |sh| ==> 1 <= sh[i] < |candidates| && candidates[sh[i]] == rest[i]
    requires forall i, j :: 0 <= i < j < |sh| ==> sh[i] < sh[j]
    requires forall k :: 1 <= k < |candidates| && candidates[k] in readable ==> k in sh
    ensures Selects(candidates, readable, [candidates[0]] + rest, [0] + sh)
  {
    var r, ix := [candidates[0]] + rest, [0] + sh;
    assert forall i :: 1 <= i < |ix| ==> ix[i] == sh[i - 1] && r[i] == rest[i - 1];
    forall k | 0 <= k < |candidates| && candidates[k] in readable ensures k in ix {
      if k > 0 {
        var i :| 0 <= i < |sh| && sh[i] == k;
        assert ix[i + 1] == k;
      }
    }
  }

  lemma ReadStep(candidates: seq<string>, readable: set<string>, rest: seq<string>)
    requires candidates != [] && ReadFacts(candidates[1..], readable, rest)
    ensures candidates[0] in readable ==> ReadFacts(candidates, readable, [candidates[0]] + rest)
    ensures candidates[0] !in readable ==> ReadFacts(candidates, readable, rest)
  {
    var tail := candidates[1..];
    assert candidates == [candidates[0]] + tail;
    assert forall i :: 1 <= i < |candidates| ==> candidates[i] == tail[i - 1];
    if candidates[0] !in readable && rest != [] {
      var k :| 0 <= k < |tail| && tail[k] == rest[0] && forall j :: 0 <= j < k ==> tail[j] !in readable;
      assert candidates[k + 1] == rest[0];
    }
  }

  /** The value of the first item named `key`, if any. */
  function Find(items: seq<(string, string)>, key: string): (r: Option<string>)
    ensures r.None? <==> forall i :: 0 <= i < |items| ==> items[i].0 != key
    ensures r.Some? ==> exists i :: 0 <= i < |items| && items[i] == (key, r.value) &&
                                    forall j :: 0 <= j < i ==> items[j].0 != key
  {
    if items == [] then None
    else if items[0].0 == key then Some(items[0].1)
    else
      var r := Find(items[1..], key);
      assert forall i :: 1 <= i < |items| ==> items[i] == items[1..][i - 1];
      assert r.Some? ==> exists i :: 0 <= i < |items| && items[i] == (key, r.value) &&
                                     forall j :: 0 <= j < i ==> items[j].0 != key by {
        if r.Some? {
          var i :| 0 <= i < |items[1..]| && items[1..][i] == (key, r.value) &&
                   forall j :: 0 <= j < i ==> items[1..][j].0 != key;
          assert items[i + 1] == (key, r.value);
        }
      }
      r
  }

  /** The environment variable that overrides parameter `name`. */
  function EnvKey(name: string): string
  {
    "ACMEDNS_" + Text.Upper(name)
  }

  /**
   * Parameter `name`: the environment variable ACMEDNS_<NAME> when it is
   * set, otherwise the option of that name in `section`, otherwise None;
   * a missing section or option is not an error.
   */
  function Get(env: map<string, string>, ini: Ini, section: string, name: string): (r: Option<string>)
    ensures EnvKey(name) in env ==> r == Some(env[EnvKey(name)])
    ensures r.None? <==> EnvKey(name) !in env &&
                         (section !in ini || forall i :: 0 <= i < |ini[section]| ==> ini[section][i].0 != Text.Lower(name))
    ensures EnvKey(name) !in env && r.Some? ==>
              section in ini && exists i :: 0 <= i < |ini[section]| && ini[section][i] == (Text.Lower(name), r.value)
  {
    if EnvKey(name) in env then Some(env[EnvKey(name)])
    else if section in ini then Find(ini[section], Text.Lower(name))
    else None
  }

  /** The class path "package.module.Class" split at its last dot into module and class name. */
  function SplitClassPath(path: string): (r: (string, string))
    ensures '.' !in r.1
    ensures '.' in path ==> r.0 + "." + r.1 == path
    ensures '.' !in path ==> r.0 == "" && r.1 == path
  {
    Text.RPartition(path, '.')
  }

  class ConfigurationManager {
    /** The parsed configuration files. */
    const config: Ini
    /** The directory of the first configuration file read. */
    const configDir: string
    /** The "certs_path" parameter of the "default" section. */
    const certsPath: Option<string>

    constructor (ini: Ini, dir: string, env: map<string, string>)
      ensures config == ini && configDir == dir
      ensures certsPath == Get(env, ini, "default", "certs_path")
    {
      config := ini;
      configDir := dir;
      certsPath := Get(env, ini, "default", "certs_path");
    }

    /**
     * Reads the candidate files: fails when none could be read; the
     * configuration directory is that of the first file read, which is the
     * lowest-priority one, made absolute against the working directory.
     */
    static method Load(candidates: seq<string>, readable: set<string>, ini: Ini, env: map<string, string>, cwd: string)
      returns (r: Result<ConfigurationManager, ConfigError>)
      ensures r.Err? <==> forall i :: 0 <= i < |candidates| ==> candidates[i] !in readable
      ensures r.Err? ==> r.error == NoConfigFile
      ensures r.Ok? ==> fresh(r.value) && r.value.config == ini &&
                        r.value.certsPath == Get(env, ini, "default", "certs_path") &&
                        exists k :: 0 <= k < |candidates| && candidates[k] in readable &&
                                    (forall j :: 0 <= j < k ==> candidates[j] !in readable) &&
                                    r.value.configDir == Paths.Dirname(Paths.AbsPath(cwd, candidates[k]))
    {
      var files := ReadFiles(candidates, readable);
      if files == [] {
        return Err(NoConfigFile);
      }
      var m := new ConfigurationManager(ini, Paths.Dirname(Paths.AbsPath(cwd, files[0])), env);
      return Ok(m);
    }

    /** A manager for one named file. */
    static method FromFilename(name: string, readable: set<string>, ini: Ini, env: map<string, string>, cwd: string)
      returns (r: Result<ConfigurationManager, ConfigError>)
      ensures r.Err? <==> name !in readable
      ensures r.Ok? ==> fresh(r.value) && r.value.config == ini &&
                        r.value.configDir == Paths.Dirname(Paths.AbsPath(cwd, name)) &&
                        r.value.certsPath == Get(env, ini, "default", "certs_path")
    {
      r := Load([name], readable, ini, env, cwd);
      assert [name][0] == name;
    }

    /** The paths a file name is tried at, in order. */
    function Candidates(filename: string): (r: seq<string>)
    {
      [filename] + (if certsPath.Some? then [Paths.Join(certsPath.value, filename)] else []) +
      [Paths.Join(configDir, filename)]
    }

    /**
     * A file name resolved to the first candidate that exists: the name as
     * given, then under the certificates path when one is set, then under
     * the configuration directory; "File not found" when none exists.
     */
    function GetFile(files: set<string>, filename: string): (r: Result<string, ConfigError>)
      ensures r.Err? <==> forall i :: 0 <= i < |Candidates(filename)| ==> Candidates(filename)[i] !in files
      ensures r.Err? ==> r.error == FileNotFound(filename)
      ensures r.Ok? ==> r.value in files &&
                        exists k :: 0 <= k < |Candidates(filename)| && Candidates(filename)[k] == r.value &&
                                    forall j :: 0 <= j < k ==> Candidates(filename)[j] !in files
    {
      var cands := Candidates(filename);
      if filename in files then
        assert cands[0] == filename;
        Ok(filename)
      else if certsPath.Some? && Paths.Join(certsPath.value, filename) in files then
        assert cands[1] == Paths.Join(certsPath.value, filename);
        Ok(Paths.Join(certsPath.value, filename))
      else if Paths.Join(configDir, filename) in files then
        assert cands[|cands| - 1] == Paths.Join(configDir, filename);
        Ok(Paths.Join(configDir, filename))
      else
        Err(FileNotFound(filename))
    }

    /**
     * The CSR paths of the "domain" section: one resolved path per item,
     * in the section's order; a missing section or the first file that
     * cannot be found is the error.
     */
    method GetDomains(files: set<string>) returns (r: Result<seq<string>, ConfigError>)
      ensures "domain" !in config ==> r == Err(NoSection("domain"))
      ensures "domain" in config ==>
                var items := config["domain"];
                (r.Ok? <==> forall i :: 0 <= i < |items| ==> GetFile(files, items[i].1).Ok?) &&
                (r.Ok? ==> |r.value| == |items| &&
                           forall i :: 0 <= i < |items| ==> r.value[i] == GetFile(files, items[i].1).value) &&
                (r.Err? ==> exists k :: 0 <= k < |items| && GetFile(files, items[k].1).Err? &&
                                        r == Err(GetFile(files, items[k].1).error) &&
                                        forall i :: 0 <= i < k ==> GetFile(files, items[i].1).Ok?)
    {
      if "domain" !in config {
        return Err(NoSection("domain"));
      }
      var items := config["domain"];
      var domains: seq<string> := [];
      var n := 0;
      while n < |items|
        invariant 0 <= n <= |items| && |domains| == n
        invariant forall i :: 0 <= i < n ==> GetFile(files, items[i].1).Ok? && domains[i] == GetFile(files, items[i].1).value
      {
        var path := GetFile(files, items[n].1);
        if path.Err? {
          return Err(path.error);
        }
        domains := domains + [path.value];
        n := n + 1;
      }
      return Ok(domains);
    }
  }
}
