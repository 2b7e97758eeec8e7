/**
 * The yaml_to_liquid Liquid tag: {% yaml_to_liquid <path> %} loads the YAML file
 * at <path> each time it renders and puts the loaded value in the page hash
 * under 'yml'.
 */
module YamlTag {
  import opened Wrappers
  import opened Values

  /** The RuntimeError raised while the template is parsed. */
  datatype TagError = MissingPath

  /** Why a render raised: File.read found no file, or YAML::load rejected it. */
  datatype LoadError = FileNotFound(path: string) | Malformed(path: string, cause: string)

  /** The readable files: path to contents. */
  type Files = map<string, string>

  /** YAML::load on a file's contents, or the reason it rejects them. */
  type YamlParser = string -> Result<Value, string>

  const YmlKey: string := "yml"

  /** The argument check of initialize: an empty argument raises, any other is kept as it is. */
  function CheckArgument(arg: string): (r: Result<string, TagError>)
    ensures r.Failure? <==> |arg| == 0
    ensures r.Failure? ==> r.error == MissingPath
    ensures r.Success? ==> r.value == arg
  {
    if |arg| == 0 then Failure(MissingPath) else Success(arg)
  }

  /** YAML::load(File.read(path)). */
  function Load(files: Files, parse: YamlParser, path: string): (r: Result<Value, LoadError>)
    ensures path !in files ==> r == Failure(FileNotFound(path))
    ensures path in files && parse(files[path]).Success? ==> r == Success(parse(files[path]).value)
    ensures path in files && parse(files[path]).Failure? ==> r == Failure(Malformed(path, parse(files[path]).error))
  {
    if path !in files then Failure(FileNotFound(path))
    else
      match parse(files[path])
      case Success(v) => Success(v)
      case Failure(cause) => Failure(Malformed(path, cause))
  }

  /** The page hash after page['yml'] = v: 'yml' holds v, every other key is as it was. */
  function Inject(page: map<string, Value>, v: Value): (r: map<string, Value>)
    ensures r.Keys == page.Keys + {YmlKey}
    ensures r[YmlKey] == v
    ensures forall k :: k in page && k != YmlKey ==> r[k] == page[k]
  {
    page[YmlKey := v]
  }

  /** Injecting the same value twice leaves the page as injecting it once. */
  lemma InjectIdempotent(page: map<string, Value>, v: Value)
    ensures Inject(Inject(page, v), v) == Inject(page, v)
  {
  }

  /** A render that raised leaves the page as it was; one that succeeded, Inject of the loaded value. */
  function RenderedPage(page: map<string, Value>, loaded: Result<Value, LoadError>): (r: map<string, Value>)
    ensures loaded.Failure? ==> r == page
    ensures loaded.Success? ==> r.Keys == page.Keys + {YmlKey} && r[YmlKey] == loaded.value
    ensures forall k :: k in page && k != YmlKey ==> k in r && r[k] == page[k]
  {
    if loaded.Success? then Inject(page, loaded.value) else page
  }

  /**
   * Rendering twice with the same files gives the same page as rendering once:
   * nothing is cached, and the second load sees what the first saw.
   */
  lemma RenderTwice(page: map<string, Value>, files: Files, parse: YamlParser, path: string)
    ensures var once := RenderedPage(page, Load(files, parse, path));
      RenderedPage(once, Load(files, parse, path)) == once
  {
    var loaded := Load(files, parse, path);
    if loaded.Success? {
      InjectIdempotent(page, loaded.value);
    }
  }

  /** The render context; only its page register is used. */
  class Context {
    /** context.registers[:page] */
    var page: map<string, Value>

    constructor (page: map<string, Value>)
      ensures this.page == page
    {
      this.page := page;
    }
  }

  class YamlToLiquid {
    /** @yml_path */
    const ymlPath: string

    constructor (path: string)
      requires |path| > 0
      ensures ymlPath == path
    {
      ymlPath := path;
    }

    /** YamlToLiquid.new: raises on an empty argument, keeps any other unchanged as the path. */
    static method New(tagName: string, arg: string) returns (r: Result<YamlToLiquid, TagError>)
      ensures r.Failure? <==> |arg| == 0
      ensures r.Failure? ==> r.error == MissingPath
      ensures r.Success? ==> fresh(r.value) && r.value.ymlPath == arg
    {
      match CheckArgument(arg)
      case Failure(e) =>
        r := Failure(e);
      case Success(path) =>
        var tag := new YamlToLiquid(path);
        r := Success(tag);
    }

    /**
     * render: loads the file afresh and stores the value in the page's 'yml'
     * slot; a missing or malformed file raises before the page is touched. The
     * loaded value is also what render returns to Liquid.
     */
    method Render(context: Context, files: Files, parse: YamlParser) returns (r: Result<Value, LoadError>)
      modifies context
      ensures r == Load(files, parse, ymlPath)
      ensures context.page == RenderedPage(old(context.page), r)
    {
      r := Load(files, parse, ymlPath);
      if r.Success? {
        context.page := Inject(context.page, r.value);
      }
    }
  }
}
