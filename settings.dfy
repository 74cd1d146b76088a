/** The configuration of backend/settings.py: where the model comes from,
    where it is stored, and the two names derived from them. */
module Settings {
  import opened Paths

  datatype Settings = Settings(modelUri: string, modelFolder: Path, chatFormat: string)

  /** The extension that `MODEL_NAME` strips. */
  const ModelExtension: string := ".gguf"

  /** The field defaults; `MODEL_FOLDER` is the relative path "models" and the
      `MODEL_URI` default is assembled from the two pieces below (DefaultUri
      spells it out in full). */
  const DefaultDir: string := "https://huggingface.co/second-state/Llava-v1.5-7B-GGUF/resolve/main"
  const DefaultStem: string := "llava-v1.5-7b-Q4_K_M"
  const Defaults: Settings := Settings(
    DefaultDir + "/" + DefaultStem + ModelExtension,
    Path(false, ["models"]),
    "vicuna")

  /** The file name both properties take from the URI. */
  function Filename(s: Settings): (name: string)
    ensures IsLastSegment(s.modelUri, name)
  {
    LastSegment(s.modelUri)
  }

  /** `MODEL_PATH`: the file name placed under the model folder. */
  function ModelPath(s: Settings): (p: Path)
    ensures p.absolute == s.modelFolder.absolute
    ensures Filename(s) != "" && Filename(s) != "." ==> p.parts == s.modelFolder.parts + [Filename(s)]
    ensures Filename(s) == "" || Filename(s) == "." ==> p == s.modelFolder
    ensures ValidPath(s.modelFolder) ==> ValidPath(p)
  {
    Child(s.modelFolder, Filename(s))
  }

  predicate EndsWith(s: string, suffix: string)
  {
    |suffix| <= |s| && s[|s| - |suffix|..] == suffix
  }

  /** Python's `s.removesuffix(suffix)`: one occurrence, only at the end. */
  function RemoveSuffix(s: string, suffix: string): (r: string)
    ensures EndsWith(s, suffix) ==> r + suffix == s
    ensures !EndsWith(s, suffix) ==> r == s
  {
    if EndsWith(s, suffix) then s[..|s| - |suffix|] else s
  }

  /** `MODEL_NAME`: the file name without its ".gguf" extension. */
  function ModelName(s: Settings): (name: string)
    ensures '/' !in name
    ensures |name| <= |Filename(s)| && Filename(s)[..|name|] == name
  {
    RemoveSuffix(Filename(s), ModelExtension)
  }

  /** The model name is a prefix of the file name, never contains '/', and
      gives the file name back when ".gguf" is appended to it, when the file
      name had that extension; otherwise it is the file name itself. */
  lemma ModelNameRoundTrip(s: Settings)
    ensures Filename(s)[..|ModelName(s)|] == ModelName(s)
    ensures '/' !in ModelName(s)
    ensures EndsWith(Filename(s), ModelExtension) ==> ModelName(s) + ModelExtension == Filename(s)
    ensures !EndsWith(Filename(s), ModelExtension) ==> ModelName(s) == Filename(s)
  {
    var f := Filename(s);
    if EndsWith(f, ModelExtension) {
      assert f == ModelName(s) + ModelExtension;
      assert f[..|ModelName(s)|] == ModelName(s);
    }
  }

  /** The model name begins the last component of the model path, when the
      URI's file name is one pathlib keeps. */
  lemma ModelNameBeginsModelPath(s: Settings)
    requires Filename(s) != "" && Filename(s) != "."
    ensures var p := ModelPath(s);
      |p.parts| >= 1 && p.parts[|p.parts| - 1] == Filename(s)
      && Filename(s)[..|ModelName(s)|] == ModelName(s)
  {
    ModelNameRoundTrip(s);
  }

  /** Only one extension is removed. */
  lemma RemovesOneSuffix()
    ensures RemoveSuffix("a.gguf.gguf", ModelExtension) == "a.gguf"
  {
  }

  /** A URI that ends in "/" followed by a name without '/' has that name as its file name. */
  lemma FilenameAfterLastSlash(s: Settings, dir: string, name: string)
    requires s.modelUri == dir + "/" + name
    requires '/' !in name
    ensures Filename(s) == name
  {
    var uri := s.modelUri;
    assert uri[|uri| - |name|..] == name;
    assert uri[|uri| - |name| - 1] == '/';
    LastSegmentUnique(uri, name, Filename(s));
  }

  /** A URI of the form dir/stem.gguf names the model stem and stores it as
      stem.gguf under the model folder. */
  lemma NamesOfGgufUri(s: Settings, dir: string, stem: string)
    requires s.modelUri == dir + "/" + stem + ModelExtension
    requires '/' !in stem
    ensures Filename(s) == stem + ModelExtension
    ensures ModelPath(s) == Path(s.modelFolder.absolute, s.modelFolder.parts + [stem + ModelExtension])
    ensures ModelName(s) == stem
  {
    var name := stem + ModelExtension;
    assert s.modelUri == dir + "/" + name;
    FilenameAfterLastSlash(s, dir, name);
    assert name[|name| - |ModelExtension|..] == ModelExtension;
    assert name[..|name| - |ModelExtension|] == stem;
  }

  /** The `MODEL_URI` default, character for character. */
  lemma DefaultUri()
    ensures Defaults.modelUri
         == "https://huggingface.co/second-state/Llava-v1.5-7B-GGUF/resolve/main/llava-v1.5-7b-Q4_K_M.gguf"
  {
  }

  /** With the defaults, the model is called llava-v1.5-7b-Q4_K_M and is stored
      at models/llava-v1.5-7b-Q4_K_M.gguf. */
  lemma DefaultNames(s: Settings)
    requires s == Defaults
    ensures ModelName(s) == "llava-v1.5-7b-Q4_K_M"
    ensures ModelPath(s) == Path(false, ["models", "llava-v1.5-7b-Q4_K_M.gguf"])
  {
    NamesOfGgufUri(s, DefaultDir, DefaultStem);
    assert DefaultStem + ModelExtension == "llava-v1.5-7b-Q4_K_M.gguf";
    assert s.modelFolder.parts + ["llava-v1.5-7b-Q4_K_M.gguf"] == ["models", "llava-v1.5-7b-Q4_K_M.gguf"];
  }

  /** The default model path as the string handed to the inference engine. */
  lemma DefaultPathString(s: Settings)
    requires s == Defaults
    ensures AsPosix(ModelPath(s)) == "models" + "/" + "llava-v1.5-7b-Q4_K_M.gguf"
  {
    DefaultNames(s);
    RelativePosix("models", "llava-v1.5-7b-Q4_K_M.gguf");
  }
}
