# Gallery plugin for Jekyll, modelled in Dafny

The site's only logic is the Jekyll plugin `_plugins/gallery.rb`. It has two parts.

* **The gallery generator** (`GalleryGenerator#generate`). It reads `gallery_dir` (default `galleries`) and `gallery_layout` (default `gallery`) from the site configuration. It empties `site.data['galleries']`, then walks the directories directly under `<source>/<gallery_dir>/`. For each directory it appends a `GalleryPage` named `<name>.html` to `site.pages`. The page's data is `{'layout' => gallery_layout, 'photos' => [...]}`, with one escaped URL per entry of the directory. It also appends `{name => escaped "/<gallery_dir>/<name>.html"}` to the index.
* **The `yaml_to_liquid` tag** (`YamlToLiquid`). It refuses an empty argument when the template is parsed. Each time it renders, it reads the file named by the argument, parses it as YAML and stores the result in the page hash under `'yml'`.

Modules, one per concern:

| file | module | what it holds |
|---|---|---|
| `wrappers.dfy` | `Wrappers` | `Option`, `Result` |
| `values.dfy` | `Values` | YAML/Ruby values, Ruby truthiness, `hash[key] \|\| default`, `to_s` for interpolation |
| `uri.dfy` | `Uri` | `URI.escape`: percent-encoding of the UTF-8 bytes of every character outside the unreserved and reserved sets of RFC 2396 (sections 2.2 and 2.3), plus `[` and `]`, which RFC 2732 adds to the reserved set and Ruby's parser keeps. Also its inverse `Unescape` and the round-trip proof |
| `paths.dfy` | `Paths` | `File.basename` |
| `gallery.dfy` | `Gallery` | the disk as the globs see it, the pages and index entries, the `Site` and `GalleryGenerator` classes, the specification of one run (`Generated`) and the lemmas about it |
| `yaml_tag.dfy` | `YamlTag` | the argument check, loading, the page update, the `Context` and `YamlToLiquid` classes |

How the pieces are represented:

* **The disk** is a map from a directory path ending in `/` to its entries, each a name and a directory flag, in enumeration order. A path with no listing does not exist, so both globs see nothing there.
* **`File.read`** is a map from path to contents.
* **`YAML::load`** is a parameter: a function from contents to a value or an error message.
* **`Site`** is a class: the constant `source` and `config`, and the fields `pages` and `galleries` that `generate` reassigns. `galleries` stands for `site.data['galleries']`.
* **`GalleryGenerator`** is a class with the fields `site`, `galleryDir` and `galleryLayout` that `generate` sets.
* **`Context`** is a class whose `page` map stands for `context.registers[:page]`.

`Generate` and `Render` are proved against pure specifications (`Generated`, `Load`, `RenderedPage`), and the lemmas state what the source promises about those.

Three behaviours of the code are worth stating, because a reader might expect otherwise. The model follows the code each time:

- Enumeration order is whatever `Dir[]` returns. The model does not sort it: it takes the listing order as given.
- Ruby's `*` glob skips names that start with `.`. So dotfiles and hidden directories become neither galleries nor photos.
- An empty argument raises a plain `RuntimeError` ("Please enter a yaml file path"). A failed render raises whatever `File.read` or `YAML::load` raises. The model names these `MissingPath`, `FileNotFound(path)` and `Malformed(path, cause)`.

## Model

| member | source | states |
|---|---|---|
| `Values.Lookup` | _plugins/gallery.rb:8-9 | `h[key] \|\| default`: the stored value when it is present and neither nil nor false, otherwise the default |
| `Values.NatToS` | _plugins/gallery.rb:21 | the decimal text Ruby interpolates for a number: non-empty, all digits, and no leading zero for a positive number |
| `Values.NatToSValue` | _plugins/gallery.rb:21 | reading the digits back gives the number: `DigitsValue(NatToS(n)) == n` |
| `Values.Truthy` | _plugins/gallery.rb:8-9 | what `\|\|` tests: only nil and false are false, so 0, the empty string and empty collections are true |
| `Values.ToS` | _plugins/gallery.rb:12 | interpolation: a string is itself, nil is empty, a boolean is `true` or `false`, an integer starts with `-` exactly when it is negative |
| `Values.ToSIntValue` | _plugins/gallery.rb:12 | an integer interpolates as its decimal digits without leading zeros, after `-` when negative; the digits read back as its absolute value |
| `Gallery.GalleryDir` | _plugins/gallery.rb:8 | `galleries` when `gallery_dir` is absent, nil or false; the configured text when it is a string (the empty string included) |
| `Gallery.GalleryLayout` | _plugins/gallery.rb:9 | `gallery` when `gallery_layout` is absent, nil or false; otherwise the configured value, unchanged |
| `Gallery.GalleryRoot` | _plugins/gallery.rb:12 | `<source>/<gallery_dir>/` ends in `/`, so a listed name appended to it gives a child path |
| `Gallery.PageData` | _plugins/gallery.rb:22 | the page data has exactly the keys `layout` and `photos`; `layout` is the layout and `photos` lists the URLs one for one, in order |
| `Gallery.NewGalleryPage` | _plugins/gallery.rb:30-33 | the page is `<name>.html` in the given dir; `content` is taken out of the data (`''` when absent or falsy) and every other key is kept; data without `content` is kept whole and gives empty content |
| `Gallery.Matched` | _plugins/gallery.rb:12 | a glob picks at most the listed entries, and only matching ones; `MatchedMembers` gives both directions |
| `Gallery.GlobPaths` | _plugins/gallery.rb:12 | at most one path per listed entry; `GlobPathsAt` says which path each one is |
| `Gallery.Glob` | _plugins/gallery.rb:12 | `Dir["<dir>*"]` and `Dir["<dir>*/"]` yield exactly one path per matched entry; `GlobPathsAt` gives the k-th path |
| `Gallery.MatchedMembers` | _plugins/gallery.rb:12 | an entry is picked by a glob if and only if it is listed, visible, and a directory when the pattern ends in `/` |
| `Gallery.MatchedNone` | _plugins/gallery.rb:12 | a listing with nothing the glob matches (missing, empty, only files or dotfiles) yields nothing |
| `Gallery.MatchedAppend` | _plugins/gallery.rb:12 | globbing keeps listing order: the matches of `a + b` are those of `a` followed by those of `b` |
| `Gallery.MatchedDistinct` | _plugins/gallery.rb:12 | a listing without repeated names yields matches without repeated names |
| `Gallery.GlobPathsAt` | _plugins/gallery.rb:12 | the k-th path a glob yields is the directory, then the k-th matched name, then `/` for the directories-only pattern; there is exactly one path per match |
| `Gallery.Collect` | _plugins/gallery.rb:13-15 | the loop leaves exactly as many pages and index entries as gallery paths; `CollectAt` says which one each is |
| `Gallery.CollectStep` | _plugins/gallery.rb:13-15 | one more loop iteration appends exactly one page and one index entry, built from that gallery path |
| `Gallery.CollectAt` | _plugins/gallery.rb:13-15 | the k-th page and the k-th index entry are the ones built from the k-th gallery path, in enumeration order |
| `Gallery.PhotoUrl` | _plugins/gallery.rb:21 | the block of the `map`: a URL that unescapes to `/<gallery_dir>/<gallery name>/<basename of the entry>`; `PhotoUrlsOfGallery` places it in the list |
| `Gallery.PhotoUrls` | _plugins/gallery.rb:21 | one URL per entry the `Dir["#{gallery}*"]` glob matches; `PhotoUrlsOfGallery` gives the k-th URL |
| `Gallery.PhotoUrlsOfGallery` | _plugins/gallery.rb:21 | a gallery has one photo URL per visible entry of its directory (files and subdirectories alike), in listing order; the k-th is the escaped `/<gallery_dir>/<name>/<k-th entry's name>` |
| `Gallery.EmptyGalleryHasNoPhotos` | _plugins/gallery.rb:21 | a gallery directory with nothing visible in it gives an empty photo list, not an error |
| `Gallery.PageFor` | _plugins/gallery.rb:20-23 | the `GalleryPage.new` of one gallery: base `source`, dir gallery_dir, name `<basename>.html`, empty content and data `PageData(layout, photo URLs)`; `BuildersOfChild` gives it for `<root><name>/` |
| `Gallery.EntryFor` | _plugins/gallery.rb:20-24 | the index entry of one gallery: keyed by its basename, with a URL that unescapes to `/<gallery_dir>/<name>.html`; `BuildersOfChild` gives it for `<root><name>/` |
| `Gallery.BuildersOfChild` | _plugins/gallery.rb:20-24 | for the gallery `<root><name>/`, the page is `<name>.html` in gallery_dir with empty content and the gallery's page data, and the index entry is `name => escaped "/<gallery_dir>/<name>.html"` |
| `Gallery.Generated` | _plugins/gallery.rb:11-15 | one run yields as many pages as index entries, one per visible directory under the root; `GeneratedGalleries` says which page and entry each is |
| `Gallery.IndexNames` | _plugins/gallery.rb:12-24 | the k-th index entry is named after the k-th visible directory under the root |
| `Gallery.GeneratedGalleries` | _plugins/gallery.rb:6-25 | one run yields exactly one page and one index entry per visible directory under the root, in listing order; the k-th entry and the k-th page are those of the k-th directory |
| `Gallery.GalleriesAreTheDirectories` | _plugins/gallery.rb:12 | a name appears in the index if and only if the root lists a visible directory of that name; files are skipped |
| `Gallery.EmptyScan` | _plugins/gallery.rb:11-15 | a missing root, an empty root or one without visible directories gives no pages and an empty index |
| `Gallery.IndexUrl` | _plugins/gallery.rb:24 | the escaped index URL ends in `.html`; `IndexUrlOfPage` relates it to the page path |
| `Gallery.IndexUrlOfPage` | _plugins/gallery.rb:24 | the index URL is the escaped page path, and it equals the escaped gallery path followed by `.html` |
| `Gallery.IndexMatchesPage` | _plugins/gallery.rb:23-24 | for every gallery, the page is `<index name>.html` in gallery_dir, and the index URL is `URI.escape` of that page's path `/<gallery_dir>/<name>.html` |
| `Gallery.IndexUrlsDistinct` | _plugins/gallery.rb:24 | when the root lists each name once, no two index entries share a name or a URL |
| `Gallery.GalleryGenerator.Generate` | _plugins/gallery.rb:6-16 | sets gallery_dir and gallery_layout from the configuration. Extends `site.pages` by exactly the pages of `Generated`, and replaces the index by exactly its entries, whatever the index held before |
| `Gallery.GalleryGenerator.GenerateEach` | _plugins/gallery.rb:13-15 | the `each` loop extends `site.pages` and the index by exactly what `Collect` builds from the gallery paths, in order |
| `Gallery.GalleryGenerator.GenerateGalleryPage` | _plugins/gallery.rb:19-25 | appends exactly one page and one index entry for the given gallery path, and nothing else |
| `Gallery.IndexIsRebuiltEachRun` | _plugins/gallery.rb:11 | the index left by a run does not depend on what it held before; a second run on an unchanged disk leaves the same index and appends the same pages again |
| `Uri.Safe` | _plugins/gallery.rb:21 | the characters `URI.escape` leaves alone: ASCII only, and never `%`, `#`, a blank, `"`, `<` or `>`; `EscapeChar` and `UnescapeEscape` rest on it |
| `Uri.Escape` | _plugins/gallery.rb:21 | the escaped text holds only unreserved or reserved characters and `%` |
| `Uri.EscapeChar` | _plugins/gallery.rb:21 | a safe character is kept; any other becomes `%XX` of each byte of its UTF-8 encoding; `UnescapeEscapeChar` reads it back |
| `Uri.UnescapeEscapeChar` | _plugins/gallery.rb:21 | unescaping the escape of one character followed by any text gives that character followed by the unescaped text |
| `Uri.Utf8` | _plugins/gallery.rb:21 | the shortest form: one byte below U+0080, two below U+0800, three below U+10000, otherwise four; a lead byte announcing that length, then continuation bytes |
| `Uri.DecodeUtf8Encoding` | _plugins/gallery.rb:21 | decoding the UTF-8 bytes of a character gives that character back; the decoder takes only shortest forms, so together with `Utf8`'s length this fixes the bytes |
| `Uri.EscapeConcat` | _plugins/gallery.rb:21 | escaping works character by character: `Escape(a + b) == Escape(a) + Escape(b)` |
| `Uri.EscapeSafeText` | _plugins/gallery.rb:24 | text made only of safe characters (such as `.html` and `/`) is unchanged |
| `Uri.UnescapeEscape` | _plugins/gallery.rb:21 | round trip: unescaping an escaped text gives the text back |
| `Uri.EscapeInjective` | _plugins/gallery.rb:24 | two texts with the same escaped form are equal |
| `Paths.Basename` | _plugins/gallery.rb:20-21 | `File.basename` is empty only for the empty path, and holds a `/` only when it is `/` itself; `BasenameOfChild` gives the child case |
| `Paths.BasenameOfChild` | _plugins/gallery.rb:20-21 | `File.basename` of a child path is the child's own name, with or without a trailing `/` |
| `YamlTag.CheckArgument` | _plugins/gallery.rb:44-48 | an empty argument fails with `MissingPath` and only an empty one does; a non-empty argument is kept unchanged as the path |
| `YamlTag.YamlToLiquid.New` | _plugins/gallery.rb:41-49 | construction fails exactly when the argument is empty; otherwise the new tag's path is the argument |
| `YamlTag.Load` | _plugins/gallery.rb:53 | a missing file fails with `FileNotFound(path)`, and a parse error fails with `Malformed(path, cause)`; otherwise the result is the parsed value |
| `YamlTag.Inject` | _plugins/gallery.rb:54 | after `page['yml'] = v`, `yml` holds `v` and every other key keeps its value |
| `YamlTag.InjectIdempotent` | _plugins/gallery.rb:54 | storing the same value twice gives the same page as storing it once |
| `YamlTag.RenderedPage` | _plugins/gallery.rb:53-54 | a failed load leaves the page as it was; a successful one stores the value under `yml` and keeps every other key |
| `YamlTag.RenderTwice` | _plugins/gallery.rb:51-55 | rendering twice with unchanged files gives the same page as rendering once |
| `YamlTag.YamlToLiquid.Render` | _plugins/gallery.rb:51-55 | reloads the file on every call. Returns the loaded value or the load error. Updates the page exactly as `RenderedPage` says, and nothing else |

## Left out

- The deployment scripts `config/deploy.rb`, `_site/config/deploy.rb` and `_site/lib/capistrano/tasks/jekyll.rb` are not part of this model. They only run remote commands: rsync, git and `jekyll build` over SSH.
- Real filesystem access is replaced by an explicit listing. The model leaves out glob metacharacters in `source`, `gallery_dir` or a gallery name (`Dir[]` would read them as pattern syntax), the OS-dependent enumeration order (taken as given), symbolic links (an entry's directory flag is what `File.directory?` answers), and reading the disk.
- The lemmas that name directories require a well-formed listing: every name is one non-empty path component, as a real directory listing provides.
- `File.read` becomes a map from path to contents, and `YAML::load` becomes a parameter. Permission errors are folded into "not found".
- The Liquid engine is left out: tag registration (`register_tag`), the parse-time `tokens` argument, and the conversion of the value `render` returns into template text. The argument is stored as Liquid passes it, including any blanks around the path; the model does not strip them either.
- The class-level `site` accessor (`self.class.site`) is hidden global state. The site is passed explicitly and kept in the generator's `site` field.
- The URL Jekyll serves a gallery page at is built by Jekyll's own `Page` code and escaping, which are not modelled. The model does not claim that it matches the index URL; it only relates the index URL to the `dir` and `name` the page is given.
- Jekyll's `Page` superclass is left out beyond the names passed to it: URL and permalink computation, front-matter defaults, `process`, and the no-op `read_yaml` override. A page is a value here, because the plugin never updates a page after building it. The in-place `data.delete('content')` is modelled on values: the caller never looks at its hash again.
- `Gallery.GalleryGenerator.Generate`: the `galleryDir` field keeps the interpolated text of `gallery_dir`. Ruby keeps the raw configuration value and passes it as `dir` to `GalleryPage.new` (line 23), while the URLs interpolate it. The two agree whenever `gallery_dir` is a string.
- `Values.ToS`: a `gallery_dir` that is a YAML list or mapping interpolates as the empty string here. Ruby would interpolate its `inspect` form. Floats and other YAML scalars are not in the value type.
- A render context without a page register (where Ruby would raise `NoMethodError`) is not modelled. Jekyll always sets that register when it renders a page.
- Strings are sequences of Unicode scalar values, so byte strings with invalid encodings are not modelled.
- Concurrency is left out, because the build is single-threaded.
