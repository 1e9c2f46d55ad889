/**
 * OSLShaderManager (osl.cpp): the texture and shading systems shared by
 * all managers of the process and counted by their users, and the cache
 * of loaded shaders (`loaded_shaders`) that shader_load_filepath and
 * shader_load_bytecode fill, keyed by a hash of the .oso file's path and
 * modification time or by the caller's bytecode hash.
 */
module OslManager {
  import opened Wrappers

  /** Each created texture system, shading system or render-services
      object is told apart by the number of such objects created before. */
  type SystemId = nat

  /** The static members shared by every OSLShaderManager: ts_shared and
      ts_shared_users, ss_shared, services_shared and ss_shared_users. */
  class SharedSystems {
    var tsShared: Option<SystemId>
    var tsUsers: int
    var ssShared: Option<SystemId>
    var servicesShared: Option<SystemId>
    var ssUsers: int
    /** How many systems of each kind were ever created. */
    var tsCreated: nat
    var ssCreated: nat

    /** A shared system exists exactly while it has users. */
    predicate Valid()
      reads this
    {
      tsUsers >= 0 && ssUsers >= 0 &&
      (tsShared.Some? <==> tsUsers > 0) &&
      (ssShared.Some? <==> ssUsers > 0) && (servicesShared.Some? <==> ssUsers > 0) &&
      (tsShared.Some? ==> tsShared.value < tsCreated) &&
      (ssShared.Some? ==> ssShared.value < ssCreated && servicesShared.value < ssCreated)
    }

    /** The static initialisers. */
    constructor ()
      ensures Valid() && tsUsers == 0 && ssUsers == 0 && tsCreated == 0 && ssCreated == 0
    {
      tsShared := None;
      tsUsers := 0;
      ssShared := None;
      servicesShared := None;
      ssUsers := 0;
      tsCreated := 0;
      ssCreated := 0;
    }
  }

  /** What the parameters of a compiled shader say about it. */
  datatype ParamInfo = ParamInfo(name: string, varlenarray: bool, isstruct: bool, arraylen: int,
                                 isoutput: bool, isclosure: bool, vecsemantics: VecSemantics,
                                 aggregate: Aggregate, basetype: BaseType)

  datatype VecSemantics = NoSemantics | ColorSemantics | PointSemantics | VectorSemantics | NormalSemantics
                        | OtherSemantics
  datatype Aggregate = Scalar | OtherAggregate
  datatype BaseType = IntBase | FloatBase | StringBase | OtherBase

  /** OSLShaderInfo: the queried parameters and the three flags guessed
      from the bytecode text. */
  datatype ShaderInfo = ShaderInfo(params: seq<ParamInfo>, hasSurfaceEmission: bool,
                                   hasSurfaceTransparent: bool, hasSurfaceBssrdf: bool)

  /** A default-constructed OSLShaderInfo, stored for a file that could
      not be read. */
  const EmptyInfo := ShaderInfo([], false, false, false)

  /** The key of `loaded_shaders`. shader_filepath_hash digests the path
      and modification time with MD5; the model keeps the two, so two keys
      are equal exactly when path and time are. A caller's bytecode hash
      is kept as given. */
  datatype ShaderHash = FileHash(path: string, mtime: nat) | BytecodeHash(hash: string)

  /** The files the manager reads: modification time and text by path. A
      path with no time has time 0, as path_modified_time reports. */
  datatype FileSystem = FileSystem(mtime: map<string, nat>, text: map<string, string>)

  function ModifiedTime(fs: FileSystem, path: string): nat
  {
    if path in fs.mtime then fs.mtime[path] else 0
  }

  /** Whether path_dirname of `path` is not empty: the path names a
      directory (with '/' as the separator). */
  predicate HasDirectory(path: string)
  {
    '/' in path
  }

  /** `needle` occurs in `s`: std::string::find does not return npos. */
  predicate Contains(s: string, needle: string)
  {
    exists i | 0 <= i <= |s| - |needle| :: OccursAt(s, needle, i)
  }

  predicate OccursAt(s: string, needle: string, i: nat)
    requires i + |needle| <= |s|
  {
    s[i..i + |needle|] == needle
  }

  /** The result of std::string::substr(len - 4): it throws
      std::out_of_range when the position is past the end, which the
      unsigned `len - 4` is for a string shorter than four characters. */
  datatype Substr = OutOfRange | Sub(s: string)

  /** The extension test of shader_load_filepath as written. */
  function ExtensionAsWritten(path: string): (r: Substr)
    ensures r.OutOfRange? <==> |path| < 4
    ensures r.Sub? ==> |r.s| == 4 && path == path[..|path| - 4] + r.s
  {
    if |path| < 4 then OutOfRange else Sub(path[|path| - 4..])
  }

  /** A shader in the search path named by fewer than four characters
      makes shader_load_filepath throw instead of looking in the search
      path. */
  lemma ShortSearchPathNameThrows()
    ensures !HasDirectory("foo") && ExtensionAsWritten("foo") == OutOfRange
  {
  }

  /** The extension test as intended: the last four characters, and for a
      shorter path no extension at all. */
  function Extension(path: string): (r: string)
    ensures |path| >= 4 ==> ExtensionAsWritten(path) == Sub(r)
    ensures |path| < 4 ==> r != ".osl" && r != ".oso"
  {
    if |path| < 4 then "" else path[|path| - 4..]
  }

  /** The .oso file a path names: for a .osl file the .oso beside it, an
      .oso file itself, a bare name the .oso of that name in the user's
      shader directory; anything else names none. */
  /** Whether loading `path` runs the OSL compiler: it names a `.osl`
      source whose `.oso` bytecode is not cached and is either missing or
      older than the source. */
  predicate NeedsCompile(path: string, fs: FileSystem, cache: map<ShaderHash, ShaderInfo>)
  {
    Extension(path) == ".osl" &&
    var oso := path[..|path| - 4] + ".oso";
    var t := ModifiedTime(fs, oso);
    !(t != 0 && FileHash(oso, t) in cache) && (t == 0 || t < ModifiedTime(fs, path))
  }

  function ResolvedOso(path: string, userShaders: string): Option<string>
  {
    var extension := Extension(path);
    if extension == ".osl" then Some(path[..|path| - 4] + ".oso")
    else if extension == ".oso" then Some(path)
    else if !HasDirectory(path) then Some(userShaders + "/" + path + ".oso")
    else None
  }

  /** `info` is what loading the file `path` from either file system
      stores. */
  predicate ReadFrom(fs: FileSystem, compiled: FileSystem, path: string, info: ShaderInfo,
                     query: string -> seq<ParamInfo>)
  {
    (path in fs.text && info == InfoOf(fs.text[path], query)) ||
    (path in compiled.text && info == InfoOf(compiled.text[path], query))
  }

  /** The info shader_load_bytecode stores for `bytecode`, given what the
      OSL query reads from it. */
  function InfoOf(bytecode: string, query: string -> seq<ParamInfo>): ShaderInfo
  {
    ShaderInfo(query(bytecode), Contains(bytecode, "\"emission\""), Contains(bytecode, "\"transparent\""),
               Contains(bytecode, "\"bssrdf\""))
  }

  class ShaderManager {
    const shared: SharedSystems
    var ts: Option<SystemId>
    var ss: Option<SystemId>
    var services: Option<SystemId>
    var loadedShaders: map<ShaderHash, ShaderInfo>
    /** Runs of the external OSL compiler so far. */
    var compilations: nat

    /** OSLShaderManager(): attaches to both shared systems. */
    constructor (s: SharedSystems)
      requires s.Valid()
      modifies s
      ensures shared == s && s.Valid()
      ensures ts == s.tsShared && ts.Some? && ss == s.ssShared && ss.Some? && services == s.servicesShared
      ensures s.tsUsers == old(s.tsUsers) + 1 && s.ssUsers == old(s.ssUsers) + 1
      ensures old(s.tsUsers) > 0 ==> s.tsShared == old(s.tsShared)
      ensures old(s.ssUsers) > 0 ==> s.ssShared == old(s.ssShared)
      ensures loadedShaders == map[] && compilations == 0
    {
      shared := s;
      ts := None;
      ss := None;
      services := None;
      loadedShaders := map[];
      compilations := 0;
      new;
      TextureSystemInit();
      ShadingSystemInit();
    }

    /** texture_system_init: creates the shared texture system when it has
        no users, then uses it and counts one more user. */
    method TextureSystemInit()
      requires shared.Valid()
      modifies shared`tsShared, shared`tsUsers, shared`tsCreated, this`ts
      ensures shared.Valid() && shared.tsUsers == old(shared.tsUsers) + 1 && ts == shared.tsShared
      ensures old(shared.tsUsers) == 0 ==>
                shared.tsShared == Some(old(shared.tsCreated)) && shared.tsCreated == old(shared.tsCreated) + 1
      ensures old(shared.tsUsers) > 0 ==>
                shared.tsShared == old(shared.tsShared) && shared.tsCreated == old(shared.tsCreated)
    {
      if shared.tsUsers == 0 {
        shared.tsShared := Some(shared.tsCreated);
        shared.tsCreated := shared.tsCreated + 1;
      }
      ts := shared.tsShared;
      shared.tsUsers := shared.tsUsers + 1;
    }

    /** texture_system_free: counts one user less and destroys the shared
        texture system when that was the last. */
    method TextureSystemFree()
      requires shared.Valid() && shared.tsUsers > 0
      modifies shared`tsShared, shared`tsUsers, this`ts
      ensures shared.Valid() && shared.tsUsers == old(shared.tsUsers) - 1 && ts == None
      ensures shared.tsShared == (if shared.tsUsers == 0 then None else old(shared.tsShared))
    {
      shared.tsUsers := shared.tsUsers - 1;
      if shared.tsUsers == 0 {
        shared.tsShared := None;
      }
      ts := None;
    }

    /** shading_system_init: creates the shared render services and
        shading system when it has no users, which also empties this
        manager's shader cache, then uses them and counts one more user. */
    method ShadingSystemInit()
      requires shared.Valid()
      modifies shared`ssShared, shared`servicesShared, shared`ssUsers, shared`ssCreated,
               this`ss, this`services, this`loadedShaders
      ensures shared.Valid() && shared.ssUsers == old(shared.ssUsers) + 1
      ensures ss == shared.ssShared && services == shared.servicesShared
      ensures old(shared.ssUsers) == 0 ==> loadedShaders == map[] && shared.ssShared.value >= old(shared.ssCreated)
      ensures old(shared.ssUsers) > 0 ==>
                loadedShaders == old(loadedShaders) && shared.ssShared == old(shared.ssShared) &&
                shared.servicesShared == old(shared.servicesShared)
    {
      if shared.ssUsers == 0 {
        shared.servicesShared := Some(shared.ssCreated);
        shared.ssShared := Some(shared.ssCreated + 1);
        shared.ssCreated := shared.ssCreated + 2;
        loadedShaders := map[];
      }
      ss := shared.ssShared;
      services := shared.servicesShared;
      shared.ssUsers := shared.ssUsers + 1;
    }

    /** shading_system_free: counts one user less and destroys the shared
        shading system and render services when that was the last. */
    method ShadingSystemFree()
      requires shared.Valid() && shared.ssUsers > 0
      modifies shared`ssShared, shared`servicesShared, shared`ssUsers, this`ss, this`services
      ensures shared.Valid() && shared.ssUsers == old(shared.ssUsers) - 1 && ss == None && services == None
      ensures shared.ssShared == (if shared.ssUsers == 0 then None else old(shared.ssShared))
    {
      shared.ssUsers := shared.ssUsers - 1;
      if shared.ssUsers == 0 {
        shared.ssShared := None;
        shared.servicesShared := None;
      }
      ss := None;
      services := None;
    }

    /** OSLShaderManager::reset: leaves and rejoins the shading system; the
        only user gets a fresh one and an empty cache, other users keep
        both. */
    method Reset()
      requires shared.Valid() && shared.ssUsers > 0
      modifies shared`ssShared, shared`servicesShared, shared`ssUsers, shared`ssCreated,
               this`ss, this`services, this`loadedShaders
      ensures shared.Valid() && shared.ssUsers == old(shared.ssUsers) && ss == shared.ssShared
      ensures old(shared.ssUsers) == 1 ==> loadedShaders == map[] && shared.ssShared != old(shared.ssShared)
      ensures old(shared.ssUsers) > 1 ==> loadedShaders == old(loadedShaders) && shared.ssShared == old(shared.ssShared)
    {
      ShadingSystemFree();
      ShadingSystemInit();
    }

    /** ~OSLShaderManager: leaves both shared systems. */
    method Release()
      requires shared.Valid() && shared.ssUsers > 0 && shared.tsUsers > 0
      modifies shared`ssShared, shared`servicesShared, shared`ssUsers, this`ss, this`services,
               shared`tsShared, shared`tsUsers, this`ts
      ensures shared.Valid() && shared.ssUsers == old(shared.ssUsers) - 1 && shared.tsUsers == old(shared.tsUsers) - 1
      ensures ts == None && ss == None
    {
      ShadingSystemFree();
      TextureSystemFree();
    }

    /** shader_test_loaded: the key when the cache holds it. */
    function TestLoaded(hash: ShaderHash): (r: Option<ShaderHash>)
      reads this
      ensures r.Some? <==> hash in loadedShaders
      ensures r.Some? ==> r.value == hash
    {
      if hash in loadedShaders then Some(hash) else None
    }

    /** shader_load_bytecode: loads the bytecode into the shading system
        and caches its info under `hash`. */
    method LoadBytecode(hash: ShaderHash, bytecode: string, query: string -> seq<ParamInfo>)
      returns (r: Option<ShaderHash>)
      modifies this`loadedShaders
      ensures loadedShaders == old(loadedShaders)[hash := InfoOf(bytecode, query)] && r == Some(hash)
    {
      var info := ShaderInfo(query(bytecode), false, false, false);
      // the flags are guessed from the text of the bytecode
      info := info.(hasSurfaceEmission := Contains(bytecode, "\"emission\""),
                    hasSurfaceTransparent := Contains(bytecode, "\"transparent\""),
                    hasSurfaceBssrdf := Contains(bytecode, "\"bssrdf\""));
      loadedShaders := loadedShaders[hash := info];
      r := Some(hash);
    }

    /** What loading `path` through shader_load_filepath does, with `r`
        its result. */
    twostate predicate FileLoaded(path: string, fs: FileSystem, compiled: FileSystem, userShaders: string,
                                  query: string -> seq<ParamInfo>, new r: Option<ShaderHash>)
      reads this
    {
      var oso := ResolvedOso(path, userShaders);
      // a path with a directory but no known extension is refused
      (oso.None? ==> r.None? && unchanged(this)) &&
      // a result is the cache key of the resolved .oso, and only its entry changes
      (r.Some? ==> r.value in loadedShaders && r.value.FileHash? && Some(r.value.path) == oso &&
                   loadedShaders == old(loadedShaders)[r.value := loadedShaders[r.value]]) &&
      old(loadedShaders).Keys <= loadedShaders.Keys &&
      (r.Some? && r.value !in old(loadedShaders) ==>
         ReadFrom(fs, compiled, r.value.path, loadedShaders[r.value], query)) &&
      // an unreadable file is cached with an empty entry
      (r.None? && oso.Some? ==>
         exists t :: loadedShaders == old(loadedShaders)[FileHash(oso.value, t) := EmptyInfo]) &&
      (r.None? && oso.Some? && Extension(path) != ".osl" ==>
         loadedShaders == old(loadedShaders)[FileHash(oso.value, ModifiedTime(fs, path)) := EmptyInfo]) &&
      // a .oso or bare name is keyed by the time of the path as given
      (r.Some? && Extension(path) != ".osl" ==> r.value == FileHash(oso.value, ModifiedTime(fs, path))) &&
      // the cache is consulted before the file is read
      (oso.Some? && Extension(path) != ".osl" && FileHash(oso.value, ModifiedTime(fs, path)) in old(loadedShaders) ==>
         r == Some(FileHash(oso.value, ModifiedTime(fs, path))) && unchanged(this)) &&
      (Extension(path) == ".osl" && ModifiedTime(fs, oso.value) != 0 &&
       FileHash(oso.value, ModifiedTime(fs, oso.value)) in old(loadedShaders) ==>
         r == Some(FileHash(oso.value, ModifiedTime(fs, oso.value))) && unchanged(this)) &&
      // the source is compiled exactly when its .oso is not cached and is missing or older
      compilations == old(compilations) + (if NeedsCompile(path, fs, old(loadedShaders)) then 1 else 0) &&
      // a compiled file is keyed by the compiler output's time, any other .osl by its .oso's
      (r.Some? && NeedsCompile(path, fs, old(loadedShaders)) ==>
         r.value == FileHash(oso.value, ModifiedTime(compiled, oso.value))) &&
      (r.Some? && Extension(path) == ".osl" && !NeedsCompile(path, fs, old(loadedShaders)) ==>
         r.value == FileHash(oso.value, ModifiedTime(fs, oso.value)))
    }

    /** shader_load_filepath, with the extension test as intended: finds
        the .oso file the path names, compiling a .osl file first when its
        .oso is missing or older (`compiled` is the file system after the
        external compiler ran), and loads it unless the cache already holds
        it under its path and time. A file that cannot be read is cached
        with an empty info, so later calls do not try again. */
    method LoadFilepath(path: string, fs: FileSystem, compiled: FileSystem, userShaders: string,
                        query: string -> seq<ParamInfo>)
      returns (r: Option<ShaderHash>)
      modifies this`loadedShaders, this`compilations
      ensures FileLoaded(path, fs, compiled, userShaders, query, r)
    {
      var len := |path|;
      var extension := Extension(path);
      var modified := ModifiedTime(fs, path);
      var files := fs;
      var filepath := path;
      if extension == ".osl" {
        var osopath := path[..len - 4] + ".oso";
        var osoModified := ModifiedTime(fs, osopath);
        if osoModified != 0 {
          var hash := TestLoaded(FileHash(osopath, osoModified));
          if hash.Some? {
            return hash;
          }
        }
        if osoModified == 0 || osoModified < modified {
          compilations := compilations + 1;
          files := compiled;
          modified := ModifiedTime(files, osopath);
        } else {
          modified := osoModified;
        }
        filepath := osopath;
      } else {
        if extension == ".oso" {
          // nothing to do
        } else if !HasDirectory(path) {
          filepath := userShaders + "/" + path + ".oso";
        } else {
          return None;
        }
        var hash := TestLoaded(FileHash(filepath, modified));
        if hash.Some? {
          return hash;
        }
      }
      var bytecodeHash := FileHash(filepath, modified);
      if filepath !in files.text {
        loadedShaders := loadedShaders[bytecodeHash := EmptyInfo];
        return None;
      }
      r := LoadBytecode(bytecodeHash, files.text[filepath], query);
    }
  }

  /** A file that cannot be read is tried once: the second load finds the
      empty entry the first one left. */
  method UnreadableFileTriedOnce(m: ShaderManager, path: string, fs: FileSystem, userShaders: string,
                                 query: string -> seq<ParamInfo>)
    returns (first: Option<ShaderHash>, second: Option<ShaderHash>)
    requires Extension(path) == ".oso" && path !in fs.text
    requires FileHash(path, ModifiedTime(fs, path)) !in m.loadedShaders
    modifies m`loadedShaders, m`compilations
    ensures first.None? && second == Some(FileHash(path, ModifiedTime(fs, path)))
    ensures second.value in m.loadedShaders && m.loadedShaders[second.value] == EmptyInfo
  {
    first := m.LoadFilepath(path, fs, fs, userShaders, query);
    second := m.LoadFilepath(path, fs, fs, userShaders, query);
  }
  /** The socket types a script node's parameter can become. */
  datatype SocketType = ClosureSocket | ColorSocket | PointSocket | VectorSocket | NormalSocket
                      | IntSocket | FloatSocket | StringSocket

  datatype Socket = Socket(name: string, socketType: SocketType)

  /** The OSLNode osl_node creates: how many input values it reserves, its
      sockets, and the bytecode hash or file path it records. */
  datatype ScriptNode = ScriptNode(numInputs: nat, inputs: seq<Socket>, outputs: seq<Socket>,
                                   bytecodeHash: string, filepath: string)

  /** Variable-length arrays, structs and arrays of more than one element
      are not supported. */
  predicate Unsupported(p: ParamInfo)
  {
    p.varlenarray || p.isstruct || p.arraylen > 1
  }

  /** The socket type of a supported parameter, or None for a type no
      socket has. */
  function SocketTypeOf(p: ParamInfo): (r: Option<SocketType>)
    ensures r == Some(ClosureSocket) <==> p.isclosure
    ensures r.None? <==> !p.isclosure && (p.vecsemantics == OtherSemantics ||
                                          (p.vecsemantics == NoSemantics &&
                                           (p.aggregate != Scalar || p.basetype == OtherBase)))
  {
    if p.isclosure then Some(ClosureSocket)
    else if p.vecsemantics != NoSemantics then
      match p.vecsemantics
      case ColorSemantics => Some(ColorSocket)
      case PointSemantics => Some(PointSocket)
      case VectorSemantics => Some(VectorSocket)
      case NormalSemantics => Some(NormalSocket)
      case _ => None
    else if p.aggregate == Scalar then
      match p.basetype
      case IntBase => Some(IntSocket)
      case FloatBase => Some(FloatSocket)
      case StringBase => Some(StringSocket)
      case OtherBase => None
    else None
  }

  /** How many supported input parameters `ps` holds. */
  function CountInputs(ps: seq<ParamInfo>): nat
  {
    if |ps| == 0 then 0
    else CountInputs(ps[..|ps| - 1]) + (if !Unsupported(ps[|ps| - 1]) && !ps[|ps| - 1].isoutput then 1 else 0)
  }

  /** The sockets of `ps` on the output side (`outputs`) or the input
      side, in parameter order. */
  function SocketsOf(ps: seq<ParamInfo>, outputs: bool): seq<Socket>
  {
    if |ps| == 0 then []
    else
      var p := ps[|ps| - 1];
      var t := SocketTypeOf(p);
      SocketsOf(ps[..|ps| - 1], outputs) +
      (if !Unsupported(p) && t.Some? && p.isoutput == outputs then [Socket(p.name, t.value)] else [])
  }

  /** Every socket comes from a supported parameter of its side with its
      name and type. */
  lemma {:induction false} SocketsFromParams(ps: seq<ParamInfo>, outputs: bool, k: nat)
    requires k < |SocketsOf(ps, outputs)|
    ensures exists i | 0 <= i < |ps| :: !Unsupported(ps[i]) && ps[i].isoutput == outputs &&
                                        SocketOfParam(ps[i]) == Some(SocketsOf(ps, outputs)[k])
    decreases |ps|
  {
    var p := ps[|ps| - 1];
    var prefix := ps[..|ps| - 1];
    if k < |SocketsOf(prefix, outputs)| {
      SocketsFromParams(prefix, outputs, k);
      var i :| 0 <= i < |prefix| && !Unsupported(prefix[i]) && prefix[i].isoutput == outputs &&
               SocketOfParam(prefix[i]) == Some(SocketsOf(prefix, outputs)[k]);
      assert ps[i] == prefix[i];
    } else {
      assert ps[|ps| - 1] == p;
    }
  }

  /** The socket a parameter would become, whatever its side. */
  function SocketOfParam(p: ParamInfo): Option<Socket>
  {
    match SocketTypeOf(p)
    case Some(t) => Some(Socket(p.name, t))
    case None => None
  }

  /** The node reserves a value for every input socket; it reserves one
      too many for each supported input whose type no socket has. */
  lemma {:induction false} InputsWithinCount(ps: seq<ParamInfo>)
    ensures |SocketsOf(ps, false)| <= CountInputs(ps)
    ensures (|SocketsOf(ps, false)| == CountInputs(ps)) <==>
            (forall i | 0 <= i < |ps| :: !Unsupported(ps[i]) && !ps[i].isoutput ==> SocketTypeOf(ps[i]).Some?)
    decreases |ps|
  {
    if |ps| > 0 {
      var prefix := ps[..|ps| - 1];
      InputsWithinCount(prefix);
      if forall i | 0 <= i < |ps| :: !Unsupported(ps[i]) && !ps[i].isoutput ==> SocketTypeOf(ps[i]).Some? {
        assert forall i | 0 <= i < |prefix| :: prefix[i] == ps[i];
      } else {
        var i :| 0 <= i < |ps| && !Unsupported(ps[i]) && !ps[i].isoutput && SocketTypeOf(ps[i]).None?;
        if i < |prefix| {
          assert prefix[i] == ps[i];
        }
      }
    }
  }

  /** The first loop of osl_node: counts the supported inputs. */
  method CountNumInputs(ps: seq<ParamInfo>) returns (n: nat)
    ensures n == CountInputs(ps)
  {
    n := 0;
    var i := 0;
    while i < |ps|
      invariant i <= |ps| && n == CountInputs(ps[..i])
    {
      assert ps[..i + 1][..i] == ps[..i];
      if !(ps[i].varlenarray || ps[i].isstruct || ps[i].arraylen > 1) && !ps[i].isoutput {
        n := n + 1;
      }
      i := i + 1;
    }
    assert ps[..i] == ps;
  }

  /** The second loop of osl_node: adds an input or output socket for
      every supported parameter whose type a socket has. */
  method AddSockets(ps: seq<ParamInfo>) returns (inputs: seq<Socket>, outputs: seq<Socket>)
    ensures inputs == SocketsOf(ps, false) && outputs == SocketsOf(ps, true)
  {
    inputs, outputs := [], [];
    var i := 0;
    while i < |ps|
      invariant i <= |ps| && inputs == SocketsOf(ps[..i], false) && outputs == SocketsOf(ps[..i], true)
    {
      var p := ps[i];
      assert ps[..i + 1][..i] == ps[..i] && ps[..i + 1][i] == p;
      i := i + 1;
      if p.varlenarray || p.isstruct || p.arraylen > 1 {
        continue;
      }
      var socketType := SocketTypeOf(p);
      if socketType.None? {
        continue;
      }
      if p.isoutput {
        outputs := outputs + [Socket(p.name, socketType.value)];
      } else {
        inputs := inputs + [Socket(p.name, socketType.value)];
      }
    }
    assert ps[..i] == ps;
  }

  /** osl_node: loads the shader from its file, or from the given
      bytecode unless that bytecode's hash is already loaded, and builds a
      script node from the loaded parameters. Without OSL, or when nothing
      could be loaded, there is no node. */
  method ScriptNodeOf(m: ShaderManager, useOsl: bool, filepath: string, bytecodeHash: string, bytecode: string,
                      fs: FileSystem, compiled: FileSystem, userShaders: string, query: string -> seq<ParamInfo>)
    returns (r: Option<ScriptNode>, ghost hash: Option<ShaderHash>)
    modifies m`loadedShaders, m`compilations
    ensures !useOsl ==> r.None? && unchanged(m)
    ensures useOsl ==> (r.Some? <==> hash.Some?)
    ensures useOsl && filepath == "" ==> hash == Some(BytecodeHash(bytecodeHash))
    ensures useOsl && filepath != "" ==> m.FileLoaded(filepath, fs, compiled, userShaders, query, hash)
    ensures filepath == "" ==> m.compilations == old(m.compilations)
    ensures filepath == "" && BytecodeHash(bytecodeHash) in old(m.loadedShaders) ==>
              m.loadedShaders == old(m.loadedShaders)
    ensures filepath == "" && BytecodeHash(bytecodeHash) !in old(m.loadedShaders) && useOsl ==>
              m.loadedShaders == old(m.loadedShaders)[BytecodeHash(bytecodeHash) := InfoOf(bytecode, query)]
    ensures r.Some? ==> hash.value in m.loadedShaders &&
                        var ps := m.loadedShaders[hash.value].params;
                        r.value.numInputs == CountInputs(ps) &&
                        r.value.inputs == SocketsOf(ps, false) && r.value.outputs == SocketsOf(ps, true) &&
                        |r.value.inputs| <= r.value.numInputs
    ensures r.Some? ==> (if bytecodeHash != "" then r.value.bytecodeHash == bytecodeHash && r.value.filepath == ""
                         else r.value.filepath == filepath && r.value.bytecodeHash == "")
  {
    hash := None;
    if !useOsl {
      return None, hash;
    }
    var h: Option<ShaderHash>;
    if filepath != "" {
      h := m.LoadFilepath(filepath, fs, compiled, userShaders, query);
    } else {
      h := m.TestLoaded(BytecodeHash(bytecodeHash));
      if h.None? {
        h := m.LoadBytecode(BytecodeHash(bytecodeHash), bytecode, query);
      }
    }
    hash := h;
    if h.None? {
      return None, hash;
    }
    var info := m.loadedShaders[h.value];
    var numInputs := CountNumInputs(info.params);
    var inputs, outputs := AddSockets(info.params);
    InputsWithinCount(info.params);
    var node := ScriptNode(numInputs, inputs, outputs, "", "");
    if bytecodeHash != "" {
      node := node.(bytecodeHash := bytecodeHash);
    } else {
      node := node.(filepath := filepath);
    }
    r := Some(node);
  }
}
