/**
 * The gallery generator of the Jekyll plugin: every directory directly under
 * <source>/<gallery_dir>/ becomes one page listing the URLs of its files, and
 * one {name => url} entry of the site-wide gallery index.
 */
module Gallery {
  import opened Values
  import Wrappers
  import Uri
  import Paths

  // ---------------------------------------------------------------------
  // The disk, as the globs see it

  datatype Entry = Entry(name: string, isDir: bool)

  /**
   * A directory path (ending in '/') mapped to its entries in enumeration
   * order. A path with no listing does not exist.
   */
  type FileSystem = map<string, seq<Entry>>

  function Listing(fs: FileSystem, dir: string): seq<Entry> {
    if dir in fs then fs[dir] else []
  }

  /** Every listed name is a single path component. */
  predicate WellFormed(fs: FileSystem) {
    forall dir, e :: dir in fs && e in fs[dir] ==> Paths.FileName(e.name)
  }

  /** Names with no two entries alike, as one directory lists them. */
  predicate DistinctNames(entries: seq<Entry>) {
    forall i, j :: 0 <= i < j < |entries| ==> entries[i].name != entries[j].name
  }

  /** The glob '*' does not match names that start with a dot. */
  predicate Hidden(name: string) {
    name != [] && name[0] == '.'
  }

  /** Whether the pattern '*' (dirsOnly false) or '*' followed by '/' (dirsOnly true) matches an entry. */
  predicate Matches(e: Entry, dirsOnly: bool) {
    !Hidden(e.name) && (e.isDir || !dirsOnly)
  }

  /** The entries a glob picks, in listing order. */
  function Matched(entries: seq<Entry>, dirsOnly: bool): (r: seq<Entry>)
    ensures |r| <= |entries|
    ensures forall e :: e in r ==> Matches(e, dirsOnly)
  {
    if entries == [] then []
    else (if Matches(entries[0], dirsOnly) then [entries[0]] else []) + Matched(entries[1..], dirsOnly)
  }

  /** The paths a glob yields for the entries of dir; the directories-only pattern ends them in '/'. */
  function GlobPaths(dir: string, entries: seq<Entry>, dirsOnly: bool): (r: seq<string>)
    ensures |r| <= |entries|
  {
    if entries == [] then []
    else
      var e := entries[0];
      (if Matches(e, dirsOnly) then [dir + e.name + (if dirsOnly then "/" else "")] else [])
      + GlobPaths(dir, entries[1..], dirsOnly)
  }

  /**
   * Dir["<dir>*"], or with dirsOnly the same pattern followed by '/', which yields
   * directories only, so that the select of File.directory? keeps all of them.
   */
  function Glob(fs: FileSystem, dir: string, dirsOnly: bool): (r: seq<string>)
    ensures |r| == |Matched(Listing(fs, dir), dirsOnly)|
  {
    GlobPathsAt(dir, Listing(fs, dir), dirsOnly);
    GlobPaths(dir, Listing(fs, dir), dirsOnly)
  }

  // ---------------------------------------------------------------------
  // Configuration

  const DefaultGalleryDir: string := "galleries"
  const DefaultGalleryLayout: string := "gallery"

  /** site.config['gallery_dir'] || 'galleries', as interpolated into paths. */
  function GalleryDir(config: map<string, Value>): (r: string)
    ensures !("gallery_dir" in config && Truthy(config["gallery_dir"])) ==> r == DefaultGalleryDir
    ensures "gallery_dir" in config && config["gallery_dir"].Str? ==> r == config["gallery_dir"].s
  {
    ToS(Lookup(config, "gallery_dir", Str(DefaultGalleryDir)))
  }

  /** site.config['gallery_layout'] || 'gallery'. */
  function GalleryLayout(config: map<string, Value>): (r: Value)
    ensures !("gallery_layout" in config && Truthy(config["gallery_layout"])) ==> r == Str(DefaultGalleryLayout)
    ensures "gallery_layout" in config && Truthy(config["gallery_layout"]) ==> r == config["gallery_layout"]
  {
    Lookup(config, "gallery_layout", Str(DefaultGalleryLayout))
  }

  /** "#{site.source}/#{gallery_dir}/", the directory the galleries live in. */
  function GalleryRoot(source: string, galleryDir: string): (r: string)
    ensures Paths.DirPrefix(r)
  {
    source + "/" + galleryDir + "/"
  }

  // ---------------------------------------------------------------------
  // Pages and index entries

  datatype Page = Page(base: string, dir: string, name: string, content: Value, data: map<string, Value>)

  /** One element of site.data['galleries']: the hash { name => url }. */
  datatype IndexEntry = IndexEntry(name: string, url: string)

  /** GalleryPage.new: 'content' moves out of the data into the page body ('' when absent). */
  function NewGalleryPage(base: string, dir: string, name: string, data: map<string, Value>): (p: Page)
    ensures p.base == base && p.dir == dir && p.name == name + ".html"
    ensures "content" !in p.data && p.data.Keys == data.Keys - {"content"}
    ensures forall k :: k in p.data ==> p.data[k] == data[k]
    ensures Truthy(p.content)
    ensures "content" in data && Truthy(data["content"]) ==> p.content == data["content"]
    ensures !("content" in data && Truthy(data["content"])) ==> p.content == Str("")
    ensures "content" !in data ==> p.content == Str("") && p.data == data
  {
    Page(base, dir, name + ".html", Lookup(data, "content", Str("")), data - {"content"})
  }

  /** The URL of one photo: the escaped "/<gallery_dir>/<gallery>/<file>". */
  function PhotoUrl(galleryDir: string, galleryName: string, child: string): (r: string)
    ensures Uri.Unescape(r) == Wrappers.Some("/" + galleryDir + "/" + galleryName + "/" + Paths.Basename(child))
  {
    var path := "/" + galleryDir + "/" + galleryName + "/" + Paths.Basename(child);
    Uri.UnescapeEscape(path);
    Uri.Escape(path)
  }

  /** photo_urls: one URL per path Dir["#{gallery}*"] yields, in its order. */
  function PhotoUrls(fs: FileSystem, galleryDir: string, gallery: string): (r: seq<string>)
    ensures |r| == |Matched(Listing(fs, gallery), false)|
  {
    var name := Paths.Basename(gallery);
    var children := Glob(fs, gallery, false);
    seq(|children|, k requires 0 <= k < |children| => PhotoUrl(galleryDir, name, children[k]))
  }

  /** { 'layout' => gallery_layout, 'photos' => photo_urls }. */
  function PageData(layout: Value, photoUrls: seq<string>): (d: map<string, Value>)
    ensures d.Keys == {"layout", "photos"} && d["layout"] == layout
    ensures d["photos"].List? && |d["photos"].items| == |photoUrls|
    ensures forall k :: 0 <= k < |photoUrls| ==> d["photos"].items[k] == Str(photoUrls[k])
  {
    map["layout" := layout, "photos" := List(seq(|photoUrls|, k requires 0 <= k < |photoUrls| => Str(photoUrls[k])))]
  }

  /** The escaped "/<gallery_dir>/<gallery>.html" the index records. */
  function IndexUrl(galleryDir: string, galleryName: string): (r: string)
    ensures |r| >= 5 && r[|r| - 5..] == ".html"
  {
    var prefix := "/" + galleryDir + "/" + galleryName;
    Uri.EscapeConcat(prefix, ".html");
    Uri.EscapeSafeText(".html");
    Uri.Escape(prefix + ".html")
  }

  /** The page generate_gallery_page appends for the gallery at path gallery. */
  function PageFor(fs: FileSystem, base: string, galleryDir: string, layout: Value, gallery: string): (p: Page)
    ensures p.base == base && p.dir == galleryDir && p.name == Paths.Basename(gallery) + ".html"
    ensures p.content == Str("") && p.data == PageData(layout, PhotoUrls(fs, galleryDir, gallery))
  {
    var name := Paths.Basename(gallery);
    NewGalleryPage(base, galleryDir, name, PageData(layout, PhotoUrls(fs, galleryDir, gallery)))
  }

  /** The index entry generate_gallery_page appends for the gallery at path gallery. */
  function EntryFor(galleryDir: string, gallery: string): (e: IndexEntry)
    ensures e.name == Paths.Basename(gallery)
    ensures Uri.Unescape(e.url) == Wrappers.Some("/" + galleryDir + "/" + e.name + ".html")
  {
    var name := Paths.Basename(gallery);
    Uri.UnescapeEscape("/" + galleryDir + "/" + name + ".html");
    IndexEntry(name, IndexUrl(galleryDir, name))
  }

  datatype Output = Output(pages: seq<Page>, index: seq<IndexEntry>)

  /** What the per-gallery loop appends, gallery after gallery, for given page and entry builders. */
  function Collect(galleries: seq<string>, page: string -> Page, entry: string -> IndexEntry): (r: Output)
    ensures |r.pages| == |galleries| && |r.index| == |galleries|
    decreases |galleries|
  {
    if galleries == [] then Output([], [])
    else
      var last := galleries[|galleries| - 1];
      var before := Collect(galleries[..|galleries| - 1], page, entry);
      Output(before.pages + [page(last)], before.index + [entry(last)])
  }

  lemma CollectStep(galleries: seq<string>, page: string -> Page, entry: string -> IndexEntry, i: nat)
    requires i < |galleries|
    ensures Collect(galleries[..i + 1], page, entry) ==
      var before := Collect(galleries[..i], page, entry);
      Output(before.pages + [page(galleries[i])], before.index + [entry(galleries[i])])
  {
    assert galleries[..i + 1][..i] == galleries[..i];
  }

  /** One step of the per-gallery loop of one run, with the builders applied. */
  lemma BuildStep(galleries: seq<string>, fs: FileSystem, base: string, galleryDir: string, layout: Value, i: nat)
    requires i < |galleries|
    ensures var page, entry := PageBuilder(fs, base, galleryDir, layout), EntryBuilder(galleryDir);
      var before := Collect(galleries[..i], page, entry);
      Collect(galleries[..i + 1], page, entry)
        == Output(before.pages + [PageFor(fs, base, galleryDir, layout, galleries[i])],
                  before.index + [EntryFor(galleryDir, galleries[i])])
  {
    CollectStep(galleries, PageBuilder(fs, base, galleryDir, layout), EntryBuilder(galleryDir), i);
  }

  /** Appending one element after a concatenation. */
  lemma AppendAfterConcat<T>(a: seq<T>, b: seq<T>, x: T)
    ensures (a + b) + [x] == a + (b + [x])
  {
  }

  /** The page builder and the entry builder of one run. */
  function PageBuilder(fs: FileSystem, base: string, galleryDir: string, layout: Value): string -> Page {
    gallery => PageFor(fs, base, galleryDir, layout, gallery)
  }

  function EntryBuilder(galleryDir: string): string -> IndexEntry {
    gallery => EntryFor(galleryDir, gallery)
  }

  /** The pages one run of generate appends and the index it leaves behind. */
  function Generated(fs: FileSystem, source: string, config: map<string, Value>): (r: Output)
    ensures |r.pages| == |r.index|
    ensures |r.index| == |Matched(Listing(fs, GalleryRoot(source, GalleryDir(config))), true)|
  {
    var galleryDir := GalleryDir(config);
    var root := GalleryRoot(source, galleryDir);
    Collect(Glob(fs, root, true), PageBuilder(fs, source, galleryDir, GalleryLayout(config)), EntryBuilder(galleryDir))
  }

  // ---------------------------------------------------------------------
  // What the globs pick

  /** A glob keeps exactly the entries it matches. */
  lemma {:induction false} MatchedMembers(entries: seq<Entry>, dirsOnly: bool)
    ensures forall e :: e in Matched(entries, dirsOnly) <==> e in entries && Matches(e, dirsOnly)
  {
    if entries != [] {
      MatchedMembers(entries[1..], dirsOnly);
      assert entries == [entries[0]] + entries[1..];
    }
  }

  /** A glob of a directory with nothing it matches yields nothing. */
  lemma {:induction false} MatchedNone(entries: seq<Entry>, dirsOnly: bool)
    requires forall e :: e in entries ==> !Matches(e, dirsOnly)
    ensures Matched(entries, dirsOnly) == []
  {
    if entries != [] {
      assert entries[0] in entries;
      assert forall e :: e in entries[1..] ==> e in entries;
      MatchedNone(entries[1..], dirsOnly);
    }
  }

  /** A glob keeps the listing order: the matches of a + b are those of a, then those of b. */
  lemma {:induction false} MatchedAppend(a: seq<Entry>, b: seq<Entry>, dirsOnly: bool)
    ensures Matched(a + b, dirsOnly) == Matched(a, dirsOnly) + Matched(b, dirsOnly)
  {
    if a == [] {
      assert a + b == b;
    } else {
      assert (a + b)[0] == a[0];
      assert (a + b)[1..] == a[1..] + b;
      MatchedAppend(a[1..], b, dirsOnly);
    }
  }

  /** A glob of a directory whose names are distinct yields distinct names. */
  lemma {:induction false} MatchedDistinct(entries: seq<Entry>, dirsOnly: bool)
    requires DistinctNames(entries)
    ensures DistinctNames(Matched(entries, dirsOnly))
  {
    if entries != [] {
      var rest := entries[1..];
      assert DistinctNames(rest) by {
        forall i, j | 0 <= i < j < |rest| ensures rest[i].name != rest[j].name {
          assert rest[i] == entries[i + 1] && rest[j] == entries[j + 1];
        }
      }
      MatchedDistinct(rest, dirsOnly);
      MatchedMembers(rest, dirsOnly);
      var m := Matched(rest, dirsOnly);
      forall e | e in m ensures e.name != entries[0].name {
        var t :| 0 <= t < |rest| && rest[t] == e;
        assert entries[t + 1] == e;
      }
    }
  }

  /** The k-th path of a glob is the directory followed by the k-th matched name. */
  lemma {:induction false} GlobPathsAt(dir: string, entries: seq<Entry>, dirsOnly: bool)
    ensures |GlobPaths(dir, entries, dirsOnly)| == |Matched(entries, dirsOnly)|
    ensures forall k :: 0 <= k < |Matched(entries, dirsOnly)| ==>
      GlobPaths(dir, entries, dirsOnly)[k] == dir + Matched(entries, dirsOnly)[k].name + (if dirsOnly then "/" else "")
  {
    if entries != [] {
      var rest := entries[1..];
      GlobPathsAt(dir, rest, dirsOnly);
      if Matches(entries[0], dirsOnly) {
        assert GlobPaths(dir, entries, dirsOnly)
          == [dir + entries[0].name + (if dirsOnly then "/" else "")] + GlobPaths(dir, rest, dirsOnly);
        assert Matched(entries, dirsOnly) == [entries[0]] + Matched(rest, dirsOnly);
      } else {
        assert GlobPaths(dir, entries, dirsOnly) == GlobPaths(dir, rest, dirsOnly);
        assert Matched(entries, dirsOnly) == Matched(rest, dirsOnly);
      }
    }
  }

  // ---------------------------------------------------------------------
  // What one run produces

  /** The k-th page and the k-th index entry both come from the k-th gallery path. */
  lemma {:induction false} CollectAt(galleries: seq<string>, page: string -> Page, entry: string -> IndexEntry, k: nat)
    requires k < |galleries|
    ensures |Collect(galleries, page, entry).pages| == |galleries|
    ensures |Collect(galleries, page, entry).index| == |galleries|
    ensures Collect(galleries, page, entry).pages[k] == page(galleries[k])
    ensures Collect(galleries, page, entry).index[k] == entry(galleries[k])
    decreases |galleries|
  {
    var init := galleries[..|galleries| - 1];
    if k < |init| {
      CollectAt(init, page, entry, k);
      assert init[k] == galleries[k];
    }
  }

  /** A gallery's photos: one URL per visible entry of its directory, in listing order. */
  lemma PhotoUrlsOfGallery(fs: FileSystem, galleryDir: string, root: string, name: string)
    requires WellFormed(fs) && Paths.DirPrefix(root) && Paths.FileName(name)
    ensures var gallery := root + name + "/";
      var children := Matched(Listing(fs, gallery), false);
      && |PhotoUrls(fs, galleryDir, gallery)| == |children|
      && forall k :: 0 <= k < |children| ==>
           PhotoUrls(fs, galleryDir, gallery)[k] == Uri.Escape("/" + galleryDir + "/" + name + "/" + children[k].name)
  {
    var gallery := root + name + "/";
    var listing := Listing(fs, gallery);
    var children := Matched(listing, false);
    Paths.BasenameOfChild(root, name);
    GlobPathsAt(gallery, listing, false);
    MatchedMembers(listing, false);
    forall k | 0 <= k < |children|
      ensures PhotoUrls(fs, galleryDir, gallery)[k] == Uri.Escape("/" + galleryDir + "/" + name + "/" + children[k].name)
    {
      assert children[k] in listing;
      assert gallery + children[k].name + "" == gallery + children[k].name;
      Paths.BasenameOfChild(gallery, children[k].name);
    }
  }

  /** A directory with nothing visible in it gives a page with an empty photo list. */
  lemma EmptyGalleryHasNoPhotos(fs: FileSystem, galleryDir: string, gallery: string)
    requires forall e :: e in Listing(fs, gallery) ==> Hidden(e.name)
    ensures PhotoUrls(fs, galleryDir, gallery) == []
  {
    MatchedNone(Listing(fs, gallery), false);
    GlobPathsAt(gallery, Listing(fs, gallery), false);

  }

  /** The page and the entry of the gallery <root><name>/ are named after the directory. */
  lemma BuildersOfChild(fs: FileSystem, base: string, galleryDir: string, layout: Value, root: string, name: string)
    requires Paths.DirPrefix(root) && Paths.FileName(name)
    ensures PageFor(fs, base, galleryDir, layout, root + name + "/") ==
      Page(base, galleryDir, name + ".html", Str(""), PageData(layout, PhotoUrls(fs, galleryDir, root + name + "/")))
    ensures EntryFor(galleryDir, root + name + "/") == IndexEntry(name, Uri.Escape("/" + galleryDir + "/" + name + ".html"))
  {
    Paths.BasenameOfChild(root, name);
  }

  /**
   * One run of generate: one page and one index entry per visible directory
   * directly under the gallery root, in listing order.
   */
  lemma GeneratedGalleries(fs: FileSystem, source: string, config: map<string, Value>)
    requires WellFormed(fs)
    ensures var galleryDir := GalleryDir(config);
      var root := GalleryRoot(source, galleryDir);
      var dirs := Matched(Listing(fs, root), true);
      var out := Generated(fs, source, config);
      && |out.pages| == |dirs| && |out.index| == |dirs|
      && (forall k :: 0 <= k < |dirs| ==>
            out.index[k] == IndexEntry(dirs[k].name, Uri.Escape("/" + galleryDir + "/" + dirs[k].name + ".html")))
      && (forall k :: 0 <= k < |dirs| ==>
            out.pages[k] == Page(source, galleryDir, dirs[k].name + ".html", Str(""),
                                 PageData(GalleryLayout(config), PhotoUrls(fs, galleryDir, root + dirs[k].name + "/"))))
  {
    var galleryDir := GalleryDir(config);
    var root := GalleryRoot(source, galleryDir);
    var listing := Listing(fs, root);
    var dirs := Matched(listing, true);
    var galleries := Glob(fs, root, true);
    var layout := GalleryLayout(config);
    var out := Generated(fs, source, config);
    GlobPathsAt(root, listing, true);
    MatchedMembers(listing, true);
    forall k | 0 <= k < |dirs|
      ensures out.index[k] == IndexEntry(dirs[k].name, Uri.Escape("/" + galleryDir + "/" + dirs[k].name + ".html"))
      ensures out.pages[k] == Page(source, galleryDir, dirs[k].name + ".html", Str(""),
                                   PageData(layout, PhotoUrls(fs, galleryDir, root + dirs[k].name + "/")))
    {
      CollectAt(galleries, PageBuilder(fs, source, galleryDir, layout), EntryBuilder(galleryDir), k);
      assert dirs[k] in listing;
      BuildersOfChild(fs, source, galleryDir, layout, root, dirs[k].name);
    }
  }

  /** The k-th index entry is named after the k-th visible directory under the root. */
  lemma IndexNames(fs: FileSystem, source: string, config: map<string, Value>)
    requires WellFormed(fs)
    ensures var dirs := Matched(Listing(fs, GalleryRoot(source, GalleryDir(config))), true);
      var index := Generated(fs, source, config).index;
      |index| == |dirs| && forall k :: 0 <= k < |dirs| ==> index[k].name == dirs[k].name
  {
    GeneratedGalleries(fs, source, config);
  }

  /** The galleries are exactly the visible directories under the root, whatever else it holds. */
  lemma GalleriesAreTheDirectories(fs: FileSystem, source: string, config: map<string, Value>, name: string)
    requires WellFormed(fs)
    ensures var root := GalleryRoot(source, GalleryDir(config));
      var index := Generated(fs, source, config).index;
      (exists k :: 0 <= k < |index| && index[k].name == name) <==>
      (exists e :: e in Listing(fs, root) && e.isDir && !Hidden(e.name) && e.name == name)
  {
    var root := GalleryRoot(source, GalleryDir(config));
    var index := Generated(fs, source, config).index;
    var dirs := Matched(Listing(fs, root), true);
    IndexNames(fs, source, config);
    MatchedMembers(Listing(fs, root), true);
    if exists e :: e in Listing(fs, root) && e.isDir && !Hidden(e.name) && e.name == name {
      var e :| e in Listing(fs, root) && e.isDir && !Hidden(e.name) && e.name == name;
      assert e in dirs;
      var k :| 0 <= k < |dirs| && dirs[k] == e;
      assert index[k].name == name;
    }
    if exists k :: 0 <= k < |index| && index[k].name == name {
      var k :| 0 <= k < |index| && index[k].name == name;
      assert dirs[k] in dirs;
    }
  }

  /** A root that is missing, empty or holds no visible directory gives no gallery and no error. */
  lemma EmptyScan(fs: FileSystem, source: string, config: map<string, Value>)
    requires forall e :: e in Listing(fs, GalleryRoot(source, GalleryDir(config))) ==> !Matches(e, true)
    ensures Generated(fs, source, config) == Output([], [])
  {
    var root := GalleryRoot(source, GalleryDir(config));
    MatchedNone(Listing(fs, root), true);
    GlobPathsAt(root, Listing(fs, root), true);
    assert Glob(fs, root, true) == [];
  }

  /** The index URL is the escaped page path, and the escaped gallery path followed by ".html". */
  lemma IndexUrlOfPage(galleryDir: string, name: string)
    ensures IndexUrl(galleryDir, name) == Uri.Escape("/" + galleryDir + "/" + (name + ".html"))
    ensures IndexUrl(galleryDir, name) == Uri.Escape("/" + galleryDir + "/" + name) + ".html"
  {
    var prefix := "/" + galleryDir + "/" + name;
    assert "/" + galleryDir + "/" + (name + ".html") == prefix + ".html";
    Uri.EscapeConcat(prefix, ".html");
    Uri.EscapeSafeText(".html");
  }

  /**
   * A gallery's page and its index entry agree: the page is "<name>.html" in
   * gallery_dir, and the index URL is the escaped path of that page, which is
   * the escaped gallery path followed by ".html".
   */
  lemma IndexMatchesPage(fs: FileSystem, source: string, config: map<string, Value>, k: nat)
    requires k < |Generated(fs, source, config).index|
    ensures var out := Generated(fs, source, config);
      && |out.pages| == |out.index|
      && out.pages[k].dir == GalleryDir(config)
      && out.pages[k].name == out.index[k].name + ".html"
      && out.index[k].url == Uri.Escape("/" + out.pages[k].dir + "/" + out.pages[k].name)
      && out.index[k].url == Uri.Escape("/" + out.pages[k].dir + "/" + out.index[k].name) + ".html"
  {
    var galleryDir := GalleryDir(config);
    var galleries := Glob(fs, GalleryRoot(source, galleryDir), true);
    var page, entry := PageBuilder(fs, source, galleryDir, GalleryLayout(config)), EntryBuilder(galleryDir);
    CollectAt(galleries, page, entry, k);
    IndexUrlOfPage(galleryDir, Paths.Basename(galleries[k]));
  }

  lemma JoinCancel(p: string, a: string, b: string, q: string)
    requires p + a + q == p + b + q
    ensures a == b
  {
    assert |a| == |b|;
    assert a == (p + a + q)[|p|..|p| + |a|];
    assert b == (p + b + q)[|p|..|p| + |b|];
  }

  /** When the root lists every name once, no two galleries share an index URL. */
  lemma IndexUrlsDistinct(fs: FileSystem, source: string, config: map<string, Value>)
    requires WellFormed(fs)
    requires DistinctNames(Listing(fs, GalleryRoot(source, GalleryDir(config))))
    ensures var index := Generated(fs, source, config).index;
      forall i, j :: 0 <= i < j < |index| ==> index[i].name != index[j].name && index[i].url != index[j].url
  {
    var galleryDir := GalleryDir(config);
    var dirs := Matched(Listing(fs, GalleryRoot(source, galleryDir)), true);
    var index := Generated(fs, source, config).index;
    GeneratedGalleries(fs, source, config);
    MatchedDistinct(Listing(fs, GalleryRoot(source, galleryDir)), true);
    forall i, j | 0 <= i < j < |index| ensures index[i].name != index[j].name && index[i].url != index[j].url {
      var p := "/" + galleryDir + "/";
      assert index[i].name == dirs[i].name && index[j].name == dirs[j].name;
      if index[i].url == index[j].url {
        Uri.EscapeInjective(p + dirs[i].name + ".html", p + dirs[j].name + ".html");
        JoinCancel(p, dirs[i].name, dirs[j].name, ".html");
      }
    }
  }

  // ---------------------------------------------------------------------
  // The Jekyll objects

  class Site {
    const source: string
    const config: map<string, Value>
    var pages: seq<Page>
    /** site.data['galleries'] */
    var galleries: seq<IndexEntry>

    constructor (source: string, config: map<string, Value>, pages: seq<Page>, galleries: seq<IndexEntry>)
      ensures this.source == source && this.config == config
      ensures this.pages == pages && this.galleries == galleries
    {
      this.source := source;
      this.config := config;
      this.pages := pages;
      this.galleries := galleries;
    }
  }

  class GalleryGenerator {
    var site: Site?
    var galleryDir: string
    var galleryLayout: Value

    constructor ()
      ensures site == null
    {
      site := null;
      galleryDir := "";
      galleryLayout := Nil;
    }

    method Generate(site: Site, fs: FileSystem)
      modifies this, site
      ensures this.site == site
      ensures galleryDir == GalleryDir(site.config) && galleryLayout == GalleryLayout(site.config)
      ensures site.pages == old(site.pages) + Generated(fs, site.source, site.config).pages
      ensures site.galleries == Generated(fs, site.source, site.config).index
    {
      this.site := site;
      galleryDir := GalleryDir(site.config);
      galleryLayout := GalleryLayout(site.config);

      site.galleries := [];
      var galleries := Glob(fs, GalleryRoot(site.source, galleryDir), true);
      GenerateEach(galleries, fs);
      assert Generated(fs, site.source, site.config)
        == Collect(galleries, PageBuilder(fs, site.source, galleryDir, galleryLayout), EntryBuilder(galleryDir));
    }

    /** The `each` loop of generate: one generate_gallery_page call per gallery path, in order. */
    method GenerateEach(galleries: seq<string>, fs: FileSystem)
      requires site != null
      modifies site
      ensures site.pages == old(site.pages)
        + Collect(galleries, PageBuilder(fs, site.source, galleryDir, galleryLayout), EntryBuilder(galleryDir)).pages
      ensures site.galleries == old(site.galleries)
        + Collect(galleries, PageBuilder(fs, site.source, galleryDir, galleryLayout), EntryBuilder(galleryDir)).index
    {
      ghost var source, dir, layout := site.source, galleryDir, galleryLayout;
      ghost var page, entry := PageBuilder(fs, source, dir, layout), EntryBuilder(dir);
      ghost var pages0, index0 := site.pages, site.galleries;
      var i := 0;
      while i < |galleries|
        invariant 0 <= i <= |galleries|
        invariant site.source == source && galleryDir == dir && galleryLayout == layout
        invariant site.pages == pages0 + Collect(galleries[..i], page, entry).pages
        invariant site.galleries == index0 + Collect(galleries[..i], page, entry).index
      {
        ghost var before := Collect(galleries[..i], page, entry);
        GenerateGalleryPage(galleries[i], fs);
        BuildStep(galleries, fs, source, dir, layout, i);
        AppendAfterConcat(pages0, before.pages, PageFor(fs, source, dir, layout, galleries[i]));
        AppendAfterConcat(index0, before.index, EntryFor(dir, galleries[i]));
        i := i + 1;
      }
      assert galleries[..i] == galleries;
    }

    method GenerateGalleryPage(gallery: string, fs: FileSystem)
      requires site != null
      modifies site
      ensures site.pages == old(site.pages) + [PageFor(fs, site.source, galleryDir, galleryLayout, gallery)]
      ensures site.galleries == old(site.galleries) + [EntryFor(galleryDir, gallery)]
    {
      var galleryName := Paths.Basename(gallery);
      var photoUrls := PhotoUrls(fs, galleryDir, gallery);
      var data := PageData(galleryLayout, photoUrls);
      site.pages := site.pages + [NewGalleryPage(site.source, galleryDir, galleryName, data)];
      site.galleries := site.galleries + [IndexEntry(galleryName, IndexUrl(galleryDir, galleryName))];
    }
  }

  /**
   * generate resets the index before it scans: whatever site.data['galleries']
   * held, a run leaves exactly the entries of that run, and a second run on an
   * unchanged disk leaves the same index and appends the same pages again.
   */
  method IndexIsRebuiltEachRun(source: string, config: map<string, Value>, pages: seq<Page>,
                               galleries: seq<IndexEntry>, fs: FileSystem)
    returns (first: seq<IndexEntry>, second: seq<IndexEntry>, allPages: seq<Page>)
    ensures first == Generated(fs, source, config).index && second == first
    ensures allPages == pages + Generated(fs, source, config).pages + Generated(fs, source, config).pages
  {
    var site := new Site(source, config, pages, galleries);
    var generator := new GalleryGenerator();
    generator.Generate(site, fs);
    first := site.galleries;
    generator.Generate(site, fs);
    second := site.galleries;
    allPages := site.pages;
  }
}
