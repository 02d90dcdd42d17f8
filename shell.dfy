/** The command shell's validators and its device-list commands: the shape check
    of a capture file, `add`, `rm`, `clear`, and the configuration file names
    used by `load` and `save`. The configuration directory is a map from path
    to the device records stored there; prompts and printing are not modelled. */
module Shell {
  import opened Wrappers
  import opened Builtins
  import opened Sync

  /** The keys of every record of a capture file. */
  const RecordKeys: set<string> := {"ap", "epoch", "ie", "rssi", "ssid"}

  /** The configuration directory: path to stored device records. */
  type ConfigFiles = map<string, seq<DeviceRecord>>

  /** A capture file is usable when it holds at least one record and every
      record has exactly the five expected keys. Each record is given by its
      key set. */
  method IsFileValid(fileContent: seq<set<string>>) returns (valid: bool)
    ensures valid <==> |fileContent| > 0 && forall i :: 0 <= i < |fileContent| ==> fileContent[i] == RecordKeys
  {
    if |fileContent| > 0 {
      for i := 0 to |fileContent|
        invariant forall j :: 0 <= j < i ==> fileContent[j] == RecordKeys
      {
        if fileContent[i] != RecordKeys {
          return false;
        }
      }
      return true;
    } else {
      return false;
    }
  }

  /** The last index of c in s, or -1. */
  function LastIndex(s: string, c: char): (i: int)
    ensures -1 <= i < |s|
    ensures i >= 0 ==> s[i] == c
    ensures forall j :: i < j < |s| ==> s[j] != c
  {
    if s == [] then -1
    else if s[|s| - 1] == c then |s| - 1
    else LastIndex(s[..|s| - 1], c)
  }

  /** Some character strictly between the separator and the dot is not a dot:
      the dot does not merely lead a hidden file name. */
  predicate HasStem(p: string, sepIndex: int, dotIndex: int)
    requires -1 <= sepIndex && dotIndex <= |p|
  {
    exists k :: sepIndex < k < dotIndex && p[k] != '.'
  }

  /** os.path.splitext on a POSIX path: the extension starts at the last dot
      of the last path component, unless every character of the component
      before that dot is a dot too. */
  function SplitExt(p: string): (parts: (string, string))
    ensures parts.0 + parts.1 == p
  {
    var sepIndex := LastIndex(p, '/');
    var dotIndex := LastIndex(p, '.');
    if dotIndex > sepIndex && HasStem(p, sepIndex, dotIndex) then
      assert p[..dotIndex] + p[dotIndex..] == p;
      (p[..dotIndex], p[dotIndex..])
    else
      (p, [])
  }

  /** An extension is a dot followed by neither a dot nor a separator, and the
      root keeps a character of the file name that is not a dot. */
  lemma SplitExtShape(p: string)
    ensures var (root, ext) := SplitExt(p);
      ext == [] || (ext[0] == '.' && '/' !in ext && '.' !in ext[1..] &&
                    HasStem(p, LastIndex(p, '/'), |root|))
  {
    var dotIndex := LastIndex(p, '.');
    var ext := SplitExt(p).1;
    if ext != [] {
      assert ext == p[dotIndex..];
      forall j | 0 <= j < |ext| ensures ext[j] != '/' && (j > 0 ==> ext[j] != '.') {
        assert ext[j] == p[dotIndex + j];
      }
    }
  }

  /** The file do_save writes: "config" for an empty name, and always the root
      of the name with ".yaml", whatever extension was given. */
  function SavePath(inp: string): (path: string)
    ensures path == "./config/" + SplitExt(if inp == "" then "config" else inp).0 + ".yaml"
  {
    var name := if inp == "" then "config" else inp;
    "./config/" + SplitExt(name).0 + ".yaml"
  }

  /** The file do_load reads: ".yaml" is added only when the name has no
      extension. */
  function LoadPath(inp: string): (path: string)
    ensures SplitExt(inp).1 != [] ==> path == "./config/" + inp
    ensures SplitExt(inp).1 == [] ==> path == "./config/" + inp + ".yaml"
  {
    var (root, ext) := SplitExt(inp);
    "./config/" + (if ext == [] then root + ".yaml" else root + ext)
  }

  /** A name without an extension, or with ".yaml", is saved to the file that
      loading the same name reads. */
  lemma SaveLoadSamePath(inp: string)
    requires inp != ""
    requires SplitExt(inp).1 == [] || SplitExt(inp).1 == ".yaml"
    ensures LoadPath(inp) == SavePath(inp)
  {
  }

  /** The default configuration file. */
  lemma DefaultSavePath()
    ensures SavePath("") == "./config/config.yaml"
  {
    assert LastIndex("config", '.') == -1;
    assert LastIndex("config", '/') == -1;
  }

  /** Every character of a decimal integer is a digit or a minus sign, so it
      is one word at the prompt. */
  lemma IntToStringIsWord(n: int)
    ensures IsWord(IntToString(n))
  {
    var s := IntToString(n);
    forall i | 0 <= i < |s| ensures !IsSpace(s[i]) {
      if n < 0 && i > 0 {
        assert s[1..][i - 1] == s[i];
      }
    }
  }

  /** The line "name host port" that a user types, for any integer port,
      negative ones included, splits into three tokens whose last parses back
      to the port. */
  lemma AddLineParses(name: string, host: string, port: int)
    requires IsWord(name) && IsWord(host)
    ensures var t := Split(JoinWords([name, host, IntToString(port)]));
      |t| == 3 && t[0] == name && t[1] == host && ParsePythonInt(t[2]) == Some(port)
  {
    IntToStringIsWord(port);
    SplitJoinWords([name, host, IntToString(port)]);
    ParseIntToString(port);
  }

  datatype AddOutcome = Added | WrongArgumentCount | InvalidPort

  class ScavengerShell {
    const swarm: Swarm

    constructor ()
      ensures fresh(swarm) && swarm.deviceList == []
    {
      swarm := new Swarm();
    }

    /** add Name Host Port: exactly three tokens, the port an integer. */
    method DoAdd(inp: string) returns (outcome: AddOutcome)
      modifies swarm
      ensures var t := Split(inp);
        outcome == (if |t| != 3 then WrongArgumentCount
                    else if ParsePythonInt(t[2]).None? then InvalidPort
                    else Added)
      ensures outcome != Added ==> swarm.deviceList == old(swarm.deviceList)
      ensures outcome == Added ==>
        var t := Split(inp);
        var n := |old(swarm.deviceList)|;
        |swarm.deviceList| == n + 1 && swarm.deviceList[..n] == old(swarm.deviceList) &&
        fresh(swarm.deviceList[n]) &&
        Records([swarm.deviceList[n]]) == [DeviceRecord(t[0], t[1], ParsePythonInt(t[2]).value)]
    {
      var inputSplit := Split(inp);
      if |inputSplit| != 3 {
        return WrongArgumentCount;
      }
      var name := inputSplit[0];
      var ip := inputSplit[1];
      var port := ParsePythonInt(inputSplit[2]);
      if port.None? {
        return InvalidPort;
      }
      var device := new CaptureDevice(name, ip, port.value);
      swarm.AddDevice(device);
      assert swarm.deviceList[..|old(swarm.deviceList)|] == old(swarm.deviceList);
      return Added;
    }

    method DoClear()
      modifies swarm
      ensures swarm.deviceList == []
    {
      swarm.ClearDevices();
    }

    /** rm Name: removes the first device with that name, if there is one. */
    method DoRm(inp: string) returns (found: bool)
      modifies swarm
      ensures found <==> FirstNamed(old(swarm.deviceList), inp).Some?
      ensures found ==>
        var ds := old(swarm.deviceList);
        var i := IndexOf(ds, FirstNamed(ds, inp).value);
        swarm.deviceList == ds[..i] + ds[i + 1..]
      ensures !found ==> swarm.deviceList == old(swarm.deviceList)
    {
      var success := swarm.DoesExist(inp);
      if success.Some? {
        var removed := swarm.RemoveDevice(success.value);
        return true;
      }
      return false;
    }

    /** save Name: the path written and the records written there. */
    method DoSave(inp: string, files: ConfigFiles) returns (path: string, saved: ConfigFiles)
      ensures path == SavePath(inp)
      ensures saved == files[path := Records(swarm.deviceList)]
    {
      var name := if inp == "" then "config" else inp;
      var (root, ext) := SplitExt(name);
      path := "./config/" + root + ".yaml";
      var devices := swarm.SaveSwarm();
      saved := files[path := devices];
    }

    /** load Name: clears the list, then loads the file's records; a missing
        file leaves the list empty. */
    method DoLoad(inp: string, files: ConfigFiles) returns (loaded: bool)
      modifies swarm
      ensures loaded <==> LoadPath(inp) in files
      ensures loaded ==> Records(swarm.deviceList) == files[LoadPath(inp)]
      ensures !loaded ==> swarm.deviceList == []
      ensures forall i :: 0 <= i < |swarm.deviceList| ==> fresh(swarm.deviceList[i])
    {
      swarm.ClearDevices();
      var (root, ext) := SplitExt(inp);
      var path := if ext == [] then root + ".yaml" else root + ext;
      if "./config/" + path in files {
        swarm.Load(files["./config/" + path]);
        return true;
      }
      return false;
    }

    /** Saving under a name and loading the same name reproduces the device
        triples, in order. */
    method SaveThenLoad(inp: string, files: ConfigFiles) returns (saved: ConfigFiles)
      requires inp != ""
      requires SplitExt(inp).1 == [] || SplitExt(inp).1 == ".yaml"
      modifies swarm
      ensures Records(swarm.deviceList) == old(Records(swarm.deviceList))
    {
      var path;
      path, saved := DoSave(inp, files);
      SaveLoadSamePath(inp);
      var loaded := DoLoad(inp, saved);
    }
  }
}
