/**
  `ServerContext`: the server's model registry, built by listing the models
  directory and keeping one entry per `.h5` file, keyed by the file name
  without its extension.
*/
module ServerContext {
  import opened Basics

  /** Directory listed when no models path is configured. */
  const DefaultModelsPath := "aletheia-models"

  /** The extension that marks a model file; matched case-sensitively. */
  const ModelExtension := ".h5"

  /**
    A model handle as constructed by `NN(model_path, load_models_lazy)`; its
    loading behaviour is outside this model, so it is just its arguments.
  */
  datatype NN = NN(path: string, loadLazy: bool)

  datatype ServerContext = ServerContext(models: map<string, NN>)

  /** Python's `str.endswith`. */
  predicate EndsWith(s: string, suffix: string) {
    |suffix| <= |s| && s[|s| - |suffix|..] == suffix
  }

  predicate IsModelFile(filename: string) {
    EndsWith(filename, ModelExtension)
  }

  /** `filename[:-3]`: the name with its last three characters dropped. */
  function ModelName(filename: string): (name: string)
    ensures IsModelFile(filename) ==> name + ModelExtension == filename
    ensures |filename| < 3 ==> name == ""
  {
    if |filename| < 3 then "" else filename[..|filename| - 3]
  }

  /** `os.path.join(directory, name)` for two POSIX path components. */
  function JoinPath(directory: string, name: string): (path: string)
    ensures 0 < |name| && name[0] != '/' && 0 < |directory| && directory[|directory| - 1] != '/' ==>
              path == directory + "/" + name
  {
    if 0 < |name| && name[0] == '/' then name
    else if |directory| == 0 || directory[|directory| - 1] == '/' then directory + name
    else directory + "/" + name
  }

  /** The `.h5` file names of a directory listing. */
  function ModelFiles(listing: seq<string>): set<string> {
    set filename | filename in listing && IsModelFile(filename)
  }

  /**
    `load_models`: one entry per `.h5` name of `listing`,
    keyed by the name without `.h5` and built with the given lazy flag.
  */
  function LoadModels(modelsPath: string, listing: seq<string>, loadLazy: bool): (models: map<string, NN>)
    ensures forall filename :: filename in listing && IsModelFile(filename) ==>
              ModelName(filename) in models
              && models[ModelName(filename)] == NN(JoinPath(modelsPath, filename), loadLazy)
    ensures forall name :: name in models ==> name + ModelExtension in listing
  {
    if listing == [] then map[]
    else
      var models := LoadModels(modelsPath, listing[..|listing| - 1], loadLazy);
      var filename := listing[|listing| - 1];
      if IsModelFile(filename)
      then models[ModelName(filename) := NN(JoinPath(modelsPath, filename), loadLazy)]
      else models
  }

  /** A `.h5` name is recovered from its key, so no two model files share one. */
  lemma ModelNameInjective(a: string, b: string)
    requires IsModelFile(a) && IsModelFile(b)
    requires ModelName(a) == ModelName(b)
    ensures a == b
  {
    assert a == ModelName(a) + ModelExtension;
  }

  /** The bare file ".h5" names the model with the empty key. */
  lemma BareExtensionIsEmptyName()
    ensures IsModelFile(".h5") && ModelName(".h5") == ""
  {
  }

  /** The keys of the `.h5` files among `files`. */
  function ModelNames(files: set<string>): set<string> {
    set filename | filename in files :: ModelName(filename)
  }

  /** Distinct model files have distinct keys, so there are as many keys as files. */
  lemma {:induction false} ModelNamesCount(files: set<string>)
    requires forall filename :: filename in files ==> IsModelFile(filename)
    ensures |ModelNames(files)| == |files|
    decreases |files|
  {
    if files != {} {
      var filename :| filename in files;
      var rest := files - {filename};
      ModelNamesCount(rest);
      assert ModelNames(files) == ModelNames(rest) + {ModelName(filename)};
      assert ModelName(filename) !in ModelNames(rest);
    }
  }

  /**
    The registry's keys are exactly the keys of the listing's `.h5` files, and
    every entry carries the lazy flag.
  */
  lemma LoadModelsKeys(modelsPath: string, listing: seq<string>, loadLazy: bool)
    ensures LoadModels(modelsPath, listing, loadLazy).Keys == ModelNames(ModelFiles(listing))
    ensures forall name :: name in LoadModels(modelsPath, listing, loadLazy) ==>
              LoadModels(modelsPath, listing, loadLazy)[name].loadLazy == loadLazy
  {
    var models := LoadModels(modelsPath, listing, loadLazy);
    forall name | name in models
      ensures name in ModelNames(ModelFiles(listing)) && models[name].loadLazy == loadLazy
    {
      var filename := name + ModelExtension;
      assert filename in listing;
      assert ModelName(filename) == name;
    }
  }

  /** The registry has one entry per distinct `.h5` file of the listing. */
  lemma LoadModelsSize(modelsPath: string, listing: seq<string>, loadLazy: bool)
    ensures |LoadModels(modelsPath, listing, loadLazy)| == |ModelFiles(listing)|
  {
    LoadModelsKeys(modelsPath, listing, loadLazy);
    ModelNamesCount(ModelFiles(listing));
    assert |LoadModels(modelsPath, listing, loadLazy)| == |LoadModels(modelsPath, listing, loadLazy).Keys|;
  }

  /** `models_path` when given, `"aletheia-models"` when it is `None`. */
  function ResolveModelsPath(modelsPath: Option<string>): (path: string)
    ensures modelsPath.None? ==> path == DefaultModelsPath
    ensures modelsPath.Some? ==> path == modelsPath.value
  {
    match modelsPath
    case None => DefaultModelsPath
    case Some(path) => path
  }

  /**
    `ServerContext(models_path, load_models_lazy)`, with `os.listdir` given as
    `listDir`; a listing that raises propagates out of the constructor.
  */
  function NewServerContext(
    modelsPath: Option<string>, loadLazy: bool, listDir: string -> Try<seq<string>>): (r: Try<ServerContext>)
    ensures modelsPath.None? ==>
              (listDir(DefaultModelsPath).Raised? <==> r.Raised?)
    ensures modelsPath.Some? ==> (listDir(modelsPath.value).Raised? <==> r.Raised?)
    ensures r.Ok? ==> forall name :: name in r.value.models ==>
              r.value.models[name].loadLazy == loadLazy
              && r.value.models[name].path
                   == JoinPath(ResolveModelsPath(modelsPath), name + ModelExtension)
    ensures r.Raised? ==> listDir(ResolveModelsPath(modelsPath)) == Raised(r.message)
    ensures r.Ok? ==>
              (listDir(ResolveModelsPath(modelsPath)).Ok?
               && r.value.models.Keys == ModelNames(ModelFiles(listDir(ResolveModelsPath(modelsPath)).value)))
  {
    var path := ResolveModelsPath(modelsPath);
    match listDir(path)
    case Raised(message) => Raised(message)
    case Ok(listing) =>
      LoadModelsKeys(path, listing, loadLazy);
      Ok(ServerContext(LoadModels(path, listing, loadLazy)))
  }

  /** With no models path configured only `"aletheia-models"` is listed. */
  lemma DefaultPathIsListed(
    loadLazy: bool, listDir: string -> Try<seq<string>>, otherListDir: string -> Try<seq<string>>)
    requires listDir(DefaultModelsPath) == otherListDir(DefaultModelsPath)
    ensures NewServerContext(None, loadLazy, listDir) == NewServerContext(None, loadLazy, otherListDir)
  {
  }

  /**
    With no models path configured, each model's file lives directly inside
    `"aletheia-models"` (directory entries never contain a "/").
  */
  lemma DefaultPathModelLocations(loadLazy: bool, listDir: string -> Try<seq<string>>)
    ensures var r := NewServerContext(None, loadLazy, listDir);
            r.Ok? && listDir(DefaultModelsPath).Ok?
            && (forall filename :: filename in listDir(DefaultModelsPath).value ==> '/' !in filename) ==>
              forall name :: name in r.value.models ==>
                r.value.models[name].path == DefaultModelsPath + "/" + name + ModelExtension
  {
    var r := NewServerContext(None, loadLazy, listDir);
    if r.Ok? && listDir(DefaultModelsPath).Ok? {
      var listing := listDir(DefaultModelsPath).value;
      var models := r.value.models;
      assert models == LoadModels(DefaultModelsPath, listing, loadLazy);
      if forall filename :: filename in listing ==> '/' !in filename {
        forall name | name in models
          ensures models[name].path == DefaultModelsPath + "/" + name + ModelExtension
        {
          var filename := name + ModelExtension;
          assert filename in listing;
          assert filename[0] in filename;
          assert models[name].path == JoinPath(DefaultModelsPath, filename);
          assert (DefaultModelsPath + "/") + (name + ModelExtension)
                 == DefaultModelsPath + "/" + name + ModelExtension;
        }
      }
    }
  }

  /** The extension test is case-sensitive: "x.H5" is not a model file. */
  lemma UpperCaseExtensionIgnored(modelsPath: string, loadLazy: bool)
    ensures LoadModels(modelsPath, ["x.H5", "a.h5", ".h5"], loadLazy)
              == map["a" := NN(JoinPath(modelsPath, "a.h5"), loadLazy),
                     "" := NN(JoinPath(modelsPath, ".h5"), loadLazy)]
  {
    var listing := ["x.H5", "a.h5", ".h5"];
    assert !IsModelFile("x.H5");
    assert listing[..2][..1] == ["x.H5"];
    assert ["x.H5"][..0] == [];
    var m1 := LoadModels(modelsPath, ["x.H5"], loadLazy);
    assert m1 == map[];
    assert listing[..2] == ["x.H5", "a.h5"];
    assert IsModelFile("a.h5") && ModelName("a.h5") == "a";
    var m2 := LoadModels(modelsPath, listing[..2], loadLazy);
    assert m2 == map["a" := NN(JoinPath(modelsPath, "a.h5"), loadLazy)];
    assert IsModelFile(".h5") && ModelName(".h5") == "";
  }
}
