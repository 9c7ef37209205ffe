/**
 `get_office_info`: which Office version the registry (or, failing that, the file system)
 shows, through which application the install was confirmed, and where it lives.

 The registry is given as a map from a key path under HKEY_LOCAL_MACHINE to that key's
 enumerated subkey names and named values; a path that is absent is a key that cannot be
 opened. The file system is given as the set of paths that exist.
 */
module Office {
  import opened Wrappers
  import opened FieldMap

  datatype RegKey = RegKey(subkeys: seq<string>, values: map<string, string>)

  type Registry = map<string, RegKey>

  /** Version tokens (registry subkey names) and the product each stands for. */
  const OfficeVersions: map<string, string> := map[
    "16.0" := "Office 2016/2019/2021/365",
    "15.0" := "Office 2013",
    "14.0" := "Office 2010",
    "12.0" := "Office 2007",
    "11.0" := "Office 2003"
  ]

  const NativePath: string := "SOFTWARE\\Microsoft\\Office"
  const Wow64Path: string := "SOFTWARE\\Wow6432Node\\Microsoft\\Office"

  /** The registry keys scanned, in order. */
  const OfficePaths: seq<string> := [NativePath, Wow64Path]

  const FileSystemVersion: string := "Office (detected via file system)"

  /** The value `Path` of the key at `keyPath`, if the key opens and has it. */
  function PathValue(reg: Registry, keyPath: string): Option<string> {
    if keyPath in reg && "Path" in reg[keyPath].values then Some(reg[keyPath].values["Path"]) else None
  }

  /** `f"{office_path}\\{subkey_name}\\{app}\\InstallRoot"` */
  function InstallRoot(officePath: string, version: string, app: string): string {
    officePath + "\\" + version + "\\" + app + "\\InstallRoot"
  }

  /** The application whose install root confirms the version: Word first, then Excel, else the registry entry alone. */
  function DetectedVia(reg: Registry, officePath: string, version: string): (via: string)
    ensures via == "Word" <==> PathValue(reg, InstallRoot(officePath, version, "Word")).Some?
    ensures via == "Excel" <==> PathValue(reg, InstallRoot(officePath, version, "Word")).None?
                                && PathValue(reg, InstallRoot(officePath, version, "Excel")).Some?
    ensures via == "Registry" <==> PathValue(reg, InstallRoot(officePath, version, "Word")).None?
                                   && PathValue(reg, InstallRoot(officePath, version, "Excel")).None?
  {
    if PathValue(reg, InstallRoot(officePath, version, "Word")).Some? then "Word"
    else if PathValue(reg, InstallRoot(officePath, version, "Excel")).Some? then "Excel"
    else "Registry"
  }

  /** What a matching subkey writes: `Version`, `Install Path` when the Common install root has one, and `Detected Via`. */
  function RecordVersion(info: Fields, reg: Registry, officePath: string, version: string): (r: Fields)
    requires version in OfficeVersions
    ensures Get(r, "Version") == Some(OfficeVersions[version])
    ensures Get(r, "Install Path") == match PathValue(reg, InstallRoot(officePath, version, "Common"))
                                      case Some(p) => Some(p)
                                      case None => Get(info, "Install Path")
    ensures Get(r, "Detected Via") == Some(DetectedVia(reg, officePath, version))
    ensures forall k :: k != "Version" && k != "Install Path" && k != "Detected Via" ==> Get(r, k) == Get(info, k)
    ensures info == [] ==>
              Keys(r) == ["Version"] + (if PathValue(reg, InstallRoot(officePath, version, "Common")).Some? then ["Install Path"] else [])
                         + ["Detected Via"]
    ensures "Version" in Keys(info) && "Detected Via" in Keys(info) ==>
              Keys(r) == Keys(info) + (if PathValue(reg, InstallRoot(officePath, version, "Common")).Some? && "Install Path" !in Keys(info)
                                       then ["Install Path"] else [])
  {
    var common := PathValue(reg, InstallRoot(officePath, version, "Common"));
    var d := Set(info, "Version", OfficeVersions[version]);
    var d' := if common.Some? then Set(d, "Install Path", common.value) else d;
    OfficeNamesDistinct();
    KeysOfRecord(info, "Version", "Install Path", "Detected Via", OfficeVersions[version], common, DetectedVia(reg, officePath, version));
    Set(d', "Detected Via", DetectedVia(reg, officePath, version))
  }

  /**
   Writing three different names, the middle one only when it has a value: into empty fields
   they are appended in the order written, and over fields that already have the first and the
   last, only a new middle name is appended.
   */
  lemma KeysOfRecord(info: Fields, n1: string, n2: string, n3: string, v1: string, v2: Option<string>, v3: string)
    requires n1 != n2 && n1 != n3 && n2 != n3
    ensures var d := Set(info, n1, v1);
            var r := Set(if v2.Some? then Set(d, n2, v2.value) else d, n3, v3);
            && (info == [] ==> Keys(r) == [n1] + (if v2.Some? then [n2] else []) + [n3])
            && (n1 in Keys(info) && n3 in Keys(info) ==>
                  Keys(r) == Keys(info) + (if v2.Some? && n2 !in Keys(info) then [n2] else []))
  {
    var d := Set(info, n1, v1);
    var d' := if v2.Some? then Set(d, n2, v2.value) else d;
    if info == [] {
      assert Keys(d) == [n1];
      assert Keys(d') == [n1] + (if v2.Some? then [n2] else []);
      assert n3 !in Keys(d');
    }
  }

  /** Position of the first subkey name that is a known version token. */
  function FirstVersion(names: seq<string>): (i: Option<nat>)
    ensures i.Some? ==> i.value < |names| && names[i.value] in OfficeVersions
                        && forall j :: 0 <= j < i.value ==> names[j] !in OfficeVersions
    ensures i.None? ==> forall j :: 0 <= j < |names| ==> names[j] !in OfficeVersions
  {
    if |names| == 0 then None
    else if names[0] in OfficeVersions then Some(0)
    else
      match FirstVersion(names[1..])
      case Some(j) => Some(j + 1)
      case None => None
  }

  /** The loop over one key's subkeys, which stops (`break`) after the first known version. */
  function ScanSubkeys(info: Fields, reg: Registry, officePath: string, names: seq<string>): Fields {
    if |names| == 0 then info
    else if names[0] in OfficeVersions then RecordVersion(info, reg, officePath, names[0])
    else ScanSubkeys(info, reg, officePath, names[1..])
  }

  /** Only the first known version among a key's subkeys is recorded; a key without one changes nothing. */
  lemma {:induction false} ScanSubkeysFirst(info: Fields, reg: Registry, officePath: string, names: seq<string>)
    ensures ScanSubkeys(info, reg, officePath, names) ==
              match FirstVersion(names)
              case Some(i) => RecordVersion(info, reg, officePath, names[i])
              case None => info
  {
    if |names| > 0 && names[0] !in OfficeVersions {
      ScanSubkeysFirst(info, reg, officePath, names[1..]);
    }
  }

  /** The loop over the registry paths: a path that cannot be opened is skipped; a later match writes over an earlier one. */
  function ScanPaths(info: Fields, reg: Registry, paths: seq<string>): Fields
    decreases |paths|
  {
    if |paths| == 0 then info
    else
      var next := if paths[0] in reg then ScanSubkeys(info, reg, paths[0], reg[paths[0]].subkeys) else info;
      ScanPaths(next, reg, paths[1..])
  }

  /** The version token a registry path contributes, if it opens and lists one. */
  function PathMatch(reg: Registry, officePath: string): (m: Option<string>)
    ensures m.Some? ==> m.value in OfficeVersions
  {
    if officePath in reg then
      match FirstVersion(reg[officePath].subkeys)
      case Some(i) => Some(reg[officePath].subkeys[i])
      case None => None
    else None
  }

  /** The effect of one registry path on the fields: the record of its first known version, if any. */
  lemma ScanOnePath(info: Fields, reg: Registry, officePath: string)
    ensures (if officePath in reg then ScanSubkeys(info, reg, officePath, reg[officePath].subkeys) else info) ==
              match PathMatch(reg, officePath)
              case Some(v) => RecordVersion(info, reg, officePath, v)
              case None => info
  {
    if officePath in reg {
      ScanSubkeysFirst(info, reg, officePath, reg[officePath].subkeys);
    }
  }

  /** Whether `os.path.join` puts a backslash between `root` and the next part. */
  predicate NeedsSeparator(root: string) {
    && root != []
    && !(|root| == 2 && root[1] == ':')
    && root[|root| - 1] != '\\' && root[|root| - 1] != '/'
  }

  /**
   `os.path.join(root, name)` on Windows, for a root without a UNC share: a backslash is added
   unless the root is empty, a bare drive or already ends in a separator.
   */
  function JoinPath(root: string, name: string): (r: string)
    ensures NeedsSeparator(root) ==> r == root + "\\" + name
    ensures !NeedsSeparator(root) ==> r == root + name
  {
    var drive := if |root| >= 2 && root[1] == ':' then root[..2] else "";
    var rest := root[|drive|..];
    assert root == drive + rest;
    var rest := if |rest| > 0 && rest[|rest| - 1] != '\\' && rest[|rest| - 1] != '/' then rest + "\\" else rest;
    drive + rest + name
  }

  /** `os.environ.get(name, default)` */
  function EnvOr(env: map<string, string>, name: string, default: string): string {
    if name in env then env[name] else default
  }

  /** The two conventional install folders checked when the registry shows nothing. */
  function CommonPaths(env: map<string, string>): seq<string> {
    [ JoinPath(EnvOr(env, "ProgramFiles", "C:\\Program Files"), "Microsoft Office"),
      JoinPath(EnvOr(env, "ProgramFiles(x86)", "C:\\Program Files (x86)"), "Microsoft Office") ]
  }

  /**
   With neither variable set, the folders are the `Microsoft Office` directories under the two
   default program roots.
   */
  lemma DefaultCommonPaths(env: map<string, string>)
    requires "ProgramFiles" !in env && "ProgramFiles(x86)" !in env
    ensures CommonPaths(env) == ["C:\\Program Files\\Microsoft Office", "C:\\Program Files (x86)\\Microsoft Office"]
  {
    var native, wow := "C:\\Program Files", "C:\\Program Files (x86)";
    assert EnvOr(env, "ProgramFiles", native) == native && EnvOr(env, "ProgramFiles(x86)", wow) == wow;
    assert NeedsSeparator(native) && NeedsSeparator(wow);
    assert native + "\\" + "Microsoft Office" == "C:\\Program Files\\Microsoft Office";
    assert wow + "\\" + "Microsoft Office" == "C:\\Program Files (x86)\\Microsoft Office";
  }

  /** The first existing folder, if any. */
  function FirstExisting(paths: seq<string>, existing: set<string>): (r: Option<string>)
    ensures r.Some? ==> r.value in existing && r.value in paths
    ensures r.None? <==> forall i :: 0 <= i < |paths| ==> paths[i] !in existing
    ensures r.Some? ==> exists i :: 0 <= i < |paths| && paths[i] == r.value && forall j :: 0 <= j < i ==> paths[j] !in existing
  {
    if |paths| == 0 then None
    else if paths[0] in existing then Some(paths[0])
    else
      var r := FirstExisting(paths[1..], existing);
      FirstExistingStep(paths, existing, r);
      r
  }

  /** A missing first folder leaves the answer to the rest of the list. */
  lemma FirstExistingStep(paths: seq<string>, existing: set<string>, r: Option<string>)
    requires |paths| > 0 && paths[0] !in existing
    requires r.None? <==> forall i :: 0 <= i < |paths| - 1 ==> paths[1..][i] !in existing
    requires r.Some? ==> exists i :: 0 <= i < |paths| - 1 && paths[1..][i] == r.value && forall j :: 0 <= j < i ==> paths[1..][j] !in existing
    ensures r.None? <==> forall i :: 0 <= i < |paths| ==> paths[i] !in existing
    ensures r.Some? ==> exists i :: 0 <= i < |paths| && paths[i] == r.value && forall j :: 0 <= j < i ==> paths[j] !in existing
  {
    assert forall i :: 1 <= i < |paths| ==> paths[i] == paths[1..][i - 1];
    if r.Some? {
      var i :| 0 <= i < |paths| - 1 && paths[1..][i] == r.value && forall j :: 0 <= j < i ==> paths[1..][j] !in existing;
      assert paths[i + 1] == r.value;
      assert forall j :: 0 <= j < i + 1 ==> paths[j] !in existing by {
        forall j | 0 <= j < i + 1
          ensures paths[j] !in existing
        {
          if j > 0 {
            assert paths[j] == paths[1..][j - 1];
          }
        }
      }
    }
  }

  /** `get_office_info` with the registry, the environment and the existing paths as inputs. */
  function OfficeInfo(reg: Registry, env: map<string, string>, existing: set<string>): Fields {
    var info := ScanPaths([], reg, OfficePaths);
    var info := if |info| == 0 then
        match FirstExisting(CommonPaths(env), existing)
        case Some(p) => [("Version", FileSystemVersion), ("Install Path", p)]
        case None => info
      else info;
    if |info| == 0 then [("Status", "Not detected")] else info
  }

  /** The two-path scan as the record of the native match, then of the WOW64 match over it. */
  lemma {:induction false} ScanOfficePaths(reg: Registry)
    ensures var afterNative := match PathMatch(reg, NativePath)
                               case Some(v) => RecordVersion([], reg, NativePath, v)
                               case None => [];
            ScanPaths([], reg, OfficePaths) ==
              match PathMatch(reg, Wow64Path)
              case Some(v) => RecordVersion(afterNative, reg, Wow64Path, v)
              case None => afterNative
  {
    ScanOnePath([], reg, NativePath);
    var afterNative := if NativePath in reg then ScanSubkeys([], reg, NativePath, reg[NativePath].subkeys) else [];
    ScanOnePath(afterNative, reg, Wow64Path);
    var afterWow := if Wow64Path in reg then ScanSubkeys(afterNative, reg, Wow64Path, reg[Wow64Path].subkeys) else afterNative;
    assert OfficePaths[0] == NativePath && OfficePaths[1..] == [Wow64Path];
    assert ScanPaths([], reg, OfficePaths) == ScanPaths(afterNative, reg, [Wow64Path]);
    assert [Wow64Path][1..] == [];
    assert ScanPaths(afterNative, reg, [Wow64Path]) == ScanPaths(afterWow, reg, []);
  }

  /** The fields left by the two-path scan when at least one path matched. */
  function RegistryRecord(reg: Registry): Fields
    requires PathMatch(reg, NativePath).Some? || PathMatch(reg, Wow64Path).Some?
  {
    var m1 := PathMatch(reg, NativePath);
    var m2 := PathMatch(reg, Wow64Path);
    var afterNative := if m1.Some? then RecordVersion([], reg, NativePath, m1.value) else [];
    if m2.Some? then RecordVersion(afterNative, reg, Wow64Path, m2.value) else afterNative
  }

  /** With a registry match the scan result is reported unchanged. */
  lemma RegistryResult(reg: Registry, env: map<string, string>, existing: set<string>)
    requires PathMatch(reg, NativePath).Some? || PathMatch(reg, Wow64Path).Some?
    ensures OfficeInfo(reg, env, existing) == RegistryRecord(reg)
  {
    ScanOfficePaths(reg);
    assert Get(RegistryRecord(reg), "Version").Some?;
  }

  /**
   A registry match decides the version: the WOW64 path's token if it has one (the `break`
   leaves only the subkey loop, so it writes over the native one), else the native token.
   */
  lemma RegistryVersion(reg: Registry, env: map<string, string>, existing: set<string>)
    requires PathMatch(reg, NativePath).Some? || PathMatch(reg, Wow64Path).Some?
    ensures PathMatch(reg, Wow64Path).Some? ==>
              && Get(OfficeInfo(reg, env, existing), "Version") == Some(OfficeVersions[PathMatch(reg, Wow64Path).value])
              && Get(OfficeInfo(reg, env, existing), "Detected Via") == Some(DetectedVia(reg, Wow64Path, PathMatch(reg, Wow64Path).value))
    ensures PathMatch(reg, Wow64Path).None? ==>
              && Get(OfficeInfo(reg, env, existing), "Version") == Some(OfficeVersions[PathMatch(reg, NativePath).value])
              && Get(OfficeInfo(reg, env, existing), "Detected Via") == Some(DetectedVia(reg, NativePath, PathMatch(reg, NativePath).value))
  {
    RegistryResult(reg, env, existing);
  }

  /** A registry match never reports a `Status`. */
  lemma RegistryNoStatus(reg: Registry, env: map<string, string>, existing: set<string>)
    requires PathMatch(reg, NativePath).Some? || PathMatch(reg, Wow64Path).Some?
    ensures Get(OfficeInfo(reg, env, existing), "Status").None?
  {
    RegistryResult(reg, env, existing);
    OfficeNamesDistinct();
    assert Get([], "Status").None?;
  }

  /** The four names the Office probe can write are pairwise different. */
  lemma OfficeNamesDistinct()
    ensures "Status" != "Version" && "Status" != "Install Path" && "Status" != "Detected Via"
    ensures "Version" != "Install Path" && "Version" != "Detected Via" && "Install Path" != "Detected Via"
  {
    assert "Status"[0] != "Version"[0] && "Status"[0] != "Install Path"[0] && "Status"[0] != "Detected Via"[0];
    assert "Version"[0] != "Install Path"[0] && "Version"[0] != "Detected Via"[0] && "Install Path"[0] != "Detected Via"[0];
  }

  /**
   The install path comes from the Common install root of the match that wrote last, and
   falls back to the native match's when the WOW64 match has none.
   */
  lemma RegistryInstallPath(reg: Registry, env: map<string, string>, existing: set<string>)
    requires PathMatch(reg, NativePath).Some? || PathMatch(reg, Wow64Path).Some?
    ensures var m1 := PathMatch(reg, NativePath);
            var m2 := PathMatch(reg, Wow64Path);
            Get(OfficeInfo(reg, env, existing), "Install Path") ==
              if m2.Some? && PathValue(reg, InstallRoot(Wow64Path, m2.value, "Common")).Some?
              then PathValue(reg, InstallRoot(Wow64Path, m2.value, "Common"))
              else if m1.Some? then PathValue(reg, InstallRoot(NativePath, m1.value, "Common"))
              else None
  {
    RegistryResult(reg, env, existing);
    assert forall k :: Get([], k).None?;
  }

  /**
   The order the Office fields are printed in. A registry match writes `Version`, then
   `Install Path` when its Common install root has one, then `Detected Via`; a WOW64 match
   over a native one only appends `Install Path` if the native match had none. The file-system
   fallback writes `Version` then `Install Path`, and otherwise `Status` stands alone.
   */
  lemma OfficeKeys(reg: Registry, env: map<string, string>, existing: set<string>)
    ensures var m1 := PathMatch(reg, NativePath);
            var m2 := PathMatch(reg, Wow64Path);
            var c1 := m1.Some? && PathValue(reg, InstallRoot(NativePath, m1.value, "Common")).Some?;
            var c2 := m2.Some? && PathValue(reg, InstallRoot(Wow64Path, m2.value, "Common")).Some?;
            Keys(OfficeInfo(reg, env, existing)) ==
              if m1.Some? || m2.Some? then
                (if c1 || (m1.None? && c2) then ["Version", "Install Path", "Detected Via"]
                 else if c2 then ["Version", "Detected Via", "Install Path"]
                 else ["Version", "Detected Via"])
              else if FirstExisting(CommonPaths(env), existing).Some? then ["Version", "Install Path"]
              else ["Status"]
  {
    var m1 := PathMatch(reg, NativePath);
    var m2 := PathMatch(reg, Wow64Path);
    if m1.Some? || m2.Some? {
      RegistryResult(reg, env, existing);
      RegistryKeys(reg);
    } else if FirstExisting(CommonPaths(env), existing).Some? {
      FileSystemFallback(reg, env, existing);
    } else {
      ScanOfficePaths(reg);
    }
  }

  /** The key order of the registry record, by which of the two matches have a Common install root. */
  lemma RegistryKeys(reg: Registry)
    requires PathMatch(reg, NativePath).Some? || PathMatch(reg, Wow64Path).Some?
    ensures var m1 := PathMatch(reg, NativePath);
            var m2 := PathMatch(reg, Wow64Path);
            var c1 := m1.Some? && PathValue(reg, InstallRoot(NativePath, m1.value, "Common")).Some?;
            var c2 := m2.Some? && PathValue(reg, InstallRoot(Wow64Path, m2.value, "Common")).Some?;
            Keys(RegistryRecord(reg)) ==
              if c1 || (m1.None? && c2) then ["Version", "Install Path", "Detected Via"]
              else if c2 then ["Version", "Detected Via", "Install Path"]
              else ["Version", "Detected Via"]
  {
    var m1 := PathMatch(reg, NativePath);
    var m2 := PathMatch(reg, Wow64Path);
    var v, p, d := "Version", "Install Path", "Detected Via";
    OfficeNamesDistinct();
    if m1.Some? {
      var c1 := PathValue(reg, InstallRoot(NativePath, m1.value, "Common")).Some?;
      var k1 := Keys(RecordVersion([], reg, NativePath, m1.value));
      RecordNames(v, p, d, c1, k1);
      if m2.Some? {
        var c2 := PathValue(reg, InstallRoot(Wow64Path, m2.value, "Common")).Some?;
        LaterRecordNames(v, p, d, c1, c2, k1, Keys(RegistryRecord(reg)));
      }
    } else {
      var c2 := PathValue(reg, InstallRoot(Wow64Path, m2.value, "Common")).Some?;
      RecordNames(v, p, d, c2, Keys(RegistryRecord(reg)));
    }
  }

  /** The names one record writes into empty fields, in order. */
  lemma RecordNames(v: string, p: string, d: string, c: bool, k: seq<string>)
    requires v != p && v != d && p != d
    requires k == [v] + (if c then [p] else []) + [d]
    ensures k == if c then [v, p, d] else [v, d]
    ensures v in k && d in k && (p in k <==> c)
  {
  }

  /** A second record over the first appends the middle name only if the first lacked it. */
  lemma LaterRecordNames(v: string, p: string, d: string, c1: bool, c2: bool, k1: seq<string>, k: seq<string>)
    requires v != p && v != d && p != d
    requires k1 == if c1 then [v, p, d] else [v, d]
    requires k == k1 + (if c2 && p !in k1 then [p] else [])
    ensures k == if c1 then [v, p, d] else if c2 then [v, d, p] else [v, d]
  {
    assert p in k1 <==> c1;
  }

  /**
   With no registry match, the first existing conventional folder is reported, and the result
   holds exactly that folder and the file-system version label.
   */
  lemma FileSystemFallback(reg: Registry, env: map<string, string>, existing: set<string>)
    requires PathMatch(reg, NativePath).None? && PathMatch(reg, Wow64Path).None?
    requires FirstExisting(CommonPaths(env), existing).Some?
    ensures OfficeInfo(reg, env, existing) ==
              [("Version", FileSystemVersion), ("Install Path", FirstExisting(CommonPaths(env), existing).value)]
  {
    ScanOfficePaths(reg);
  }

  /** "Not detected" is reported exactly when no registry path lists a known version and neither folder exists. */
  lemma NotDetected(reg: Registry, env: map<string, string>, existing: set<string>)
    ensures OfficeInfo(reg, env, existing) == [("Status", "Not detected")] <==>
              && PathMatch(reg, NativePath).None? && PathMatch(reg, Wow64Path).None?
              && forall i :: 0 <= i < 2 ==> CommonPaths(env)[i] !in existing
  {
    ScanOfficePaths(reg);
    var info := ScanPaths([], reg, OfficePaths);
    if PathMatch(reg, NativePath).Some? || PathMatch(reg, Wow64Path).Some? {
      RegistryNoStatus(reg, env, existing);
      assert Get([("Status", "Not detected")], "Status").Some?;
    } else {
      StatusIsNotFallback(CommonPaths(env), existing);
    }
  }

  /** The lone `Status` entry is never what the file-system fallback writes. */
  lemma StatusIsNotFallback(paths: seq<string>, existing: set<string>)
    ensures FirstExisting(paths, existing).Some? ==>
              [("Status", "Not detected")] != [("Version", FileSystemVersion), ("Install Path", FirstExisting(paths, existing).value)]
  {
    if FirstExisting(paths, existing).Some? {
      var fallback := [("Version", FileSystemVersion), ("Install Path", FirstExisting(paths, existing).value)];
      assert |fallback| == 2;
    }
  }
}
