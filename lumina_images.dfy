/** The gallery's image lister: every dated folder under the vision folder
    holds generated images and, beside each, an optional JSON metadata file
    with the same base name; each image becomes an entry with a served path,
    a title and a timestamp. */
module LuminaImages {
  import opened Wrappers
  import opened Text

  // ---------------------------------------------------------------------------
  // File names
  // ---------------------------------------------------------------------------

  /** The position of the last `.` in `name`. */
  function LastDot(name: string): (d: Option<nat>)
    ensures d.Some? ==> d.value < |name| && name[d.value] == '.'
  {
    if name == [] then None
    else if name[|name| - 1] == '.' then Some(|name| - 1)
    else LastDot(name[..|name| - 1])
  }

  /** No dot comes after the last one, and a name without a last dot has no
      dot at all. */
  lemma {:induction false} LastDotLast(name: string)
    ensures LastDot(name).Some? ==> forall j :: LastDot(name).value < j < |name| ==> name[j] != '.'
    ensures LastDot(name).None? ==> forall j :: 0 <= j < |name| ==> name[j] != '.'
  {
    if name != [] && name[|name| - 1] != '.' {
      LastDotLast(name[..|name| - 1]);
    }
  }

  /** `path.extname(name)`: from the last `.` on, unless that dot opens the
      name or the name is `..`. */
  function Ext(name: string): (ext: string)
    ensures |ext| <= |name| && ext == name[|name| - |ext|..]
    ensures ext != [] ==> ext[0] == '.' && |ext| < |name|
  {
    match LastDot(name)
    case None => ""
    case Some(d) => if d == 0 || name == ".." then "" else name[d..]
  }

  /** An extension holds no dot after its first character, and a name with
      no dot has none. */
  lemma ExtHasOneDot(name: string)
    ensures forall j :: 0 < j < |Ext(name)| ==> Ext(name)[j] != '.'
    ensures (forall j :: 0 <= j < |name| ==> name[j] != '.') ==> Ext(name) == []
  {
    LastDotLast(name);
    if LastDot(name).Some? {
      var d := LastDot(name).value;
      if Ext(name) != [] {
        forall j | 0 < j < |Ext(name)|
          ensures Ext(name)[j] != '.'
        {
          assert Ext(name)[j] == name[d + j];
        }
      }
    }
  }

  /** `path.basename(name, ext)` with the extension above: the name without it. */
  function BaseName(name: string): (base: string)
    ensures base + Ext(name) == name
  {
    name[..|name| - |Ext(name)|]
  }

  /** A name `base + ext` with a base that is not empty and has no dot and an
      extension that is a dot and a word without dots splits back into the
      two. */
  lemma SplitName(base: string, ext: string)
    requires base != [] && (forall j :: 0 <= j < |base| ==> base[j] != '.')
    requires |ext| >= 2 && ext[0] == '.' && forall j :: 0 < j < |ext| ==> ext[j] != '.'
    ensures Ext(base + ext) == ext && BaseName(base + ext) == base
  {
    var name := base + ext;
    assert name[..|name| - 1] == base + ext[..|ext| - 1];
    assert LastDot(name) == Some(|base|) by {
      assert name[|base|] == '.';
      forall j | |base| < j < |name|
        ensures name[j] != '.'
      {
        assert name[j] == ext[j - |base|];
      }
      LastDotIs(name, |base|);
    }
    assert name[|base|..] == ext;
  }

  /** The last dot is the dot after which no dot comes. */
  lemma LastDotIs(name: string, d: nat)
    requires d < |name| && name[d] == '.' && forall j :: d < j < |name| ==> name[j] != '.'
    ensures LastDot(name) == Some(d)
  {
  }

  const PngExt := ".png"
  const JpgExt := ".jpg"
  const JpegExt := ".jpeg"
  const WebpExt := ".webp"

  predicate IsImageExt(ext: string) { ext == PngExt || ext == JpgExt || ext == JpegExt || ext == WebpExt }

  const JsonExt := ".json"

  predicate IsJson(ext: string) { ext == JsonExt }

  // ---------------------------------------------------------------------------
  // Grouping files by base name
  // ---------------------------------------------------------------------------

  /** The image and the metadata file of one base name. */
  datatype Group = Group(image: Option<string>, json: Option<string>)

  /** A file name with its base name and extension. */
  datatype Named = Named(file: string, base: string, ext: string)

  function NameOf(file: string): (n: Named)
    ensures n.file == file && n.base + n.ext == file
  {
    Named(file, BaseName(file), Ext(file))
  }

  /** The names of a listing, split. */
  function Names(files: seq<string>): (ns: seq<Named>)
    ensures |ns| == |files|
  {
    seq(|files|, i requires 0 <= i < |files| => NameOf(files[i]))
  }

  /** Base names in the order they were first added, each with its group. */
  ghost predicate Ordered(order: seq<string>, groups: map<string, Group>) {
    (forall i, j :: 0 <= i < j < |order| ==> order[i] != order[j]) &&
    (forall b :: b in groups <==> b in order)
  }

  /** One step of the grouping loop: the base name gets a group if it has
      none, and the file becomes its image or its metadata by extension. */
  function Filed(order: seq<string>, groups: map<string, Group>, n: Named): (r: (seq<string>, map<string, Group>))
    ensures n.base in r.1 && r.1.Keys == groups.Keys + {n.base}
  {
    var g := if n.base in groups then groups[n.base] else Group(None, None);
    var g' := if IsImageExt(n.ext) then g.(image := Some(n.file)) else if IsJson(n.ext) then g.(json := Some(n.file)) else g;
    (if n.base in groups then order else order + [n.base], groups[n.base := g'])
  }

  /** The groups after filing every name, in listing order. */
  function Grouped(ns: seq<Named>): (r: (seq<string>, map<string, Group>))
  {
    if ns == [] then ([], map[])
    else
      var prev := Grouped(ns[..|ns| - 1]);
      Filed(prev.0, prev.1, ns[|ns| - 1])
  }

  /** Every base name is listed once, and exactly the listed names have a
      group. */
  lemma {:induction false} GroupedOrdered(ns: seq<Named>)
    ensures Ordered(Grouped(ns).0, Grouped(ns).1)
  {
    if ns != [] {
      GroupedOrdered(ns[..|ns| - 1]);
    }
  }

  /** The grouping loop of the handler. */
  method GroupFiles(files: seq<string>) returns (order: seq<string>, groups: map<string, Group>)
    ensures (order, groups) == Grouped(Names(files))
  {
    var ns := Names(files);
    order, groups := [], map[];
    for i := 0 to |files|
      invariant (order, groups) == Grouped(ns[..i])
    {
      assert ns[..i + 1][..i] == ns[..i];
      var n := NameOf(files[i]);
      var g := Group(None, None);
      if n.base in groups {
        g := groups[n.base];
      } else {
        order := order + [n.base];
      }
      if IsImageExt(n.ext) {
        g := g.(image := Some(n.file));
      } else if IsJson(n.ext) {
        g := g.(json := Some(n.file));
      }
      groups := groups[n.base := g];
    }
    assert ns[..|files|] == ns;
  }

  /** The last of the files with base name `b` whose extension satisfies
      `p`: a reference for what the grouping keeps. */
  function LastWith(ns: seq<Named>, b: string, p: string -> bool): (f: Option<string>)
    ensures f.Some? ==> exists k :: 0 <= k < |ns| && ns[k].file == f.value && ns[k].base == b && p(ns[k].ext)
  {
    if ns == [] then None
    else
      var n := ns[|ns| - 1];
      if n.base == b && p(n.ext) then Some(n.file)
      else
        var init := ns[..|ns| - 1];
        assert forall k :: 0 <= k < |init| ==> init[k] == ns[k];
        LastWith(init, b, p)
  }

  /** A base name has a group exactly when some file has it. */
  lemma {:induction false} GroupedNames(ns: seq<Named>, b: string)
    ensures b in Grouped(ns).1 <==> exists i :: 0 <= i < |ns| && ns[i].base == b
  {
    if ns != [] {
      var n := |ns| - 1;
      var init := ns[..n];
      GroupedNames(init, b);
      assert forall i :: 0 <= i < n ==> init[i] == ns[i];
    }
  }

  /** The group's image is the last image file with its base name. */
  lemma {:induction false} GroupedImage(ns: seq<Named>, b: string)
    requires b in Grouped(ns).1
    ensures Grouped(ns).1[b].image == LastWith(ns, b, IsImageExt)
  {
    var init := ns[..|ns| - 1];
    if b in Grouped(init).1 {
      GroupedImage(init, b);
    } else {
      NoneBefore(init, b, IsImageExt);
    }
  }

  /** The group's metadata file is the last JSON file with its base name. */
  lemma {:induction false} GroupedJson(ns: seq<Named>, b: string)
    requires b in Grouped(ns).1
    ensures Grouped(ns).1[b].json == LastWith(ns, b, IsJson)
  {
    var init := ns[..|ns| - 1];
    if b in Grouped(init).1 {
      GroupedJson(init, b);
    } else {
      NoneBefore(init, b, IsJson);
    }
  }

  /** Before a base name has a group, no file has it. */
  lemma {:induction false} NoneBefore(ns: seq<Named>, b: string, p: string -> bool)
    requires b !in Grouped(ns).1
    ensures LastWith(ns, b, p).None?
  {
    GroupedNames(ns, b);
    if ns != [] {
      var init := ns[..|ns| - 1];
      GroupedNames(init, b);
      assert forall i :: 0 <= i < |init| ==> init[i] == ns[i];
      NoneBefore(init, b, p);
    }
  }

  // ---------------------------------------------------------------------------
  // Images of one dated folder
  // ---------------------------------------------------------------------------

  /** The metadata fields the gallery uses. */
  datatype Metadata = Metadata(prompt: Option<string>, backend: Option<string>, timestamp: Option<string>)

  datatype Image = Image(path: string, title: string, timestamp: string, prompt: Option<string>,
                         backend: Option<string>, metadata: Option<Metadata>)

  const VisionRoot := "/vision/"
  const TitleLength := 50

  /** The first fifty UTF-16 code units of the prompt, or the base name when
      there is no prompt or it is empty. */
  function TitleOf(base: string, metadata: Option<Metadata>): (title: string)
    ensures metadata.Some? && metadata.value.prompt.Some? && metadata.value.prompt.value != [] ==>
      var prompt := metadata.value.prompt.value;
      title != [] && Utf16Length(title) <= TitleLength && StartsWith(prompt, title) &&
      (|title| < |prompt| ==> Utf16Length(title) + Utf16Width(prompt[|title|]) > TitleLength)
    ensures (metadata.None? || metadata.value.prompt.None? || metadata.value.prompt.value == []) ==> title == base
  {
    if metadata.Some? && metadata.value.prompt.Some? && Utf16Prefix(metadata.value.prompt.value, TitleLength) != ""
    then Utf16Prefix(metadata.value.prompt.value, TitleLength)
    else base
  }

  /** The metadata's timestamp when it is not empty, or the folder name. */
  function TimestampOf(dateDir: string, metadata: Option<Metadata>): (t: string)
    ensures metadata.Some? && metadata.value.timestamp.Some? && metadata.value.timestamp.value != [] ==>
      t == metadata.value.timestamp.value
    ensures (metadata.None? || metadata.value.timestamp.None? || metadata.value.timestamp.value == []) ==> t == dateDir
  {
    if metadata.Some? && metadata.value.timestamp.Some? && metadata.value.timestamp.value != ""
    then metadata.value.timestamp.value
    else dateDir
  }

  /** The entry for image file `image` of base name `base` in folder `dateDir`. */
  function ImageOf(dateDir: string, base: string, image: string, metadata: Option<Metadata>): (r: Image)
    ensures r.path == VisionRoot + dateDir + "/" + image
    ensures r.metadata == metadata
    ensures metadata.None? ==> r.title == base && r.timestamp == dateDir && r.prompt.None? && r.backend.None?
  {
    Image(VisionRoot + dateDir + "/" + image, TitleOf(base, metadata), TimestampOf(dateDir, metadata),
          if metadata.Some? then metadata.value.prompt else None,
          if metadata.Some? then metadata.value.backend else None, metadata)
  }

  /** The metadata of a group: the parsed JSON file when the group has one
      and it can be read and parsed (`meta` holds those, by path under the
      vision folder); otherwise none, and the image is still listed. */
  function MetadataOf(dateDir: string, g: Group, meta: map<string, Metadata>): (m: Option<Metadata>)
    ensures g.json.None? ==> m.None?
    ensures m.Some? ==> g.json.Some? && JoinPath(dateDir, g.json.value) in meta
  {
    if g.json.Some? && JoinPath(dateDir, g.json.value) in meta then Some(meta[JoinPath(dateDir, g.json.value)]) else None
  }

  /** The entries of the groups in `order` that have an image, in order. */
  function FolderImages(dateDir: string, order: seq<string>, groups: map<string, Group>, meta: map<string, Metadata>): (r: seq<Image>)
    ensures |r| <= |order|
  {
    if order == [] then []
    else
      var init := order[..|order| - 1];
      var b := order[|order| - 1];
      var prev := FolderImages(dateDir, init, groups, meta);
      if b !in groups || groups[b].image.None? then prev
      else prev + [ImageOf(dateDir, b, groups[b].image.value, MetadataOf(dateDir, groups[b], meta))]
  }

  /** The base names whose group has an image. */
  function WithImage(order: seq<string>, groups: map<string, Group>): (r: seq<string>)
    ensures forall b :: b in r ==> b in order && b in groups && groups[b].image.Some?
  {
    if order == [] then []
    else
      var init := order[..|order| - 1];
      var b := order[|order| - 1];
      assert forall c :: c in init ==> c in order;
      WithImage(init, groups) + (if b in groups && groups[b].image.Some? then [b] else [])
  }

  /** Each entry is the image of one group with an image, in order. */
  lemma {:induction false} FolderImagesFromGroups(dateDir: string, order: seq<string>, groups: map<string, Group>, meta: map<string, Metadata>)
    ensures var r := FolderImages(dateDir, order, groups, meta);
      var w := WithImage(order, groups);
      |r| == |w| &&
      forall i :: 0 <= i < |r| ==> r[i].path == VisionRoot + dateDir + "/" + groups[w[i]].image.value
  {
    if order != [] {
      FolderImagesFromGroups(dateDir, order[..|order| - 1], groups, meta);
    }
  }

  /** The entries of one dated folder: group its files, then list the groups
      with an image. */
  method ListFolder(dateDir: string, files: seq<string>, meta: map<string, Metadata>) returns (images: seq<Image>)
    ensures images == FolderOf(dateDir, files, meta)
  {
    var order, groups := GroupFiles(files);
    GroupedOrdered(Names(files));
    images := [];
    for i := 0 to |order|
      invariant images == FolderImages(dateDir, order[..i], groups, meta)
    {
      var b := order[i];
      assert b in order;
      var g := groups[b];
      FolderImagesStep(dateDir, order, groups, meta, i);
      if g.image.Some? {
        var metadata := MetadataOf(dateDir, g, meta);
        images := images + [ImageOf(dateDir, b, g.image.value, metadata)];
      }
    }
    assert order[..|order|] == order;
  }

  /** One more base name adds its group's entry when the group has an image. */
  lemma FolderImagesStep(dateDir: string, order: seq<string>, groups: map<string, Group>, meta: map<string, Metadata>, i: nat)
    requires i < |order| && order[i] in groups
    ensures var b := order[i];
      FolderImages(dateDir, order[..i + 1], groups, meta) ==
        FolderImages(dateDir, order[..i], groups, meta) +
        (if groups[b].image.Some? then [ImageOf(dateDir, b, groups[b].image.value, MetadataOf(dateDir, groups[b], meta))] else [])
  {
    assert order[..i + 1][..i] == order[..i];
  }

  /** A group's image is one of the folder's files, with an image
      extension. */
  lemma ImageFromFiles(files: seq<string>, b: string)
    requires b in Grouped(Names(files)).1 && Grouped(Names(files)).1[b].image.Some?
    ensures var f := Grouped(Names(files)).1[b].image.value; f in files && IsImageExt(Ext(f))
  {
    var ns := Names(files);
    GroupedImage(ns, b);
    var f := Grouped(ns).1[b].image.value;
    var k :| 0 <= k < |ns| && ns[k].file == f && IsImageExt(ns[k].ext);
    assert ns[k] == NameOf(files[k]);
    assert files[k] in files;
  }

  /** Every entry of a folder is one of its image files, served from the
      folder. */
  lemma FolderImagesFromFiles(dateDir: string, files: seq<string>, meta: map<string, Metadata>)
    ensures forall img :: img in FolderOf(dateDir, files, meta) ==>
      exists f :: f in files && IsImageExt(Ext(f)) && img.path == VisionRoot + dateDir + "/" + f
  {
    var order := Grouped(Names(files)).0;
    var groups := Grouped(Names(files)).1;
    var r := FolderImages(dateDir, order, groups, meta);
    assert r == FolderOf(dateDir, files, meta);
    var w := WithImage(order, groups);
    FolderImagesFromGroups(dateDir, order, groups, meta);
    forall img | img in r
      ensures exists f :: f in files && IsImageExt(Ext(f)) && img.path == VisionRoot + dateDir + "/" + f
    {
      var i :| 0 <= i < |r| && r[i] == img;
      var b := w[i];
      assert b in w;
      ImageFromFiles(files, b);
    }
  }

  // ---------------------------------------------------------------------------
  // The vision folder
  // ---------------------------------------------------------------------------

  /** What `stat` and `readdir` find for an entry of the vision folder: a
      folder with its listing (`None` when it cannot be read), another kind
      of file, or nothing (`stat` fails). */
  datatype Kind = Folder(listing: Option<seq<string>>) | Other | Unreadable

  datatype Entry = Entry(name: string, kind: Kind)

  /** A failure anywhere: `stat` or the folder listing fails. */
  predicate Fails(e: Entry) { e.kind.Unreadable? || (e.kind.Folder? && e.kind.listing.None?) }

  /** The entries of every dated folder, in listing order, or `None` when
      any entry fails; entries that are not folders are skipped. */
  function AllImages(entries: seq<Entry>, meta: map<string, Metadata>): (r: Option<seq<Image>>)
    ensures r.None? <==> exists i :: 0 <= i < |entries| && Fails(entries[i])
  {
    if entries == [] then Some([])
    else
      var init := entries[..|entries| - 1];
      var e := entries[|entries| - 1];
      var prev := AllImages(init, meta);
      assert forall i :: 0 <= i < |init| ==> init[i] == entries[i];
      if prev.None? || Fails(e) then None
      else if e.kind.Other? then prev
      else Some(prev.value + FolderOf(e.name, e.kind.listing.value, meta))
  }

  /** The entries of the dated folder `dateDir` holding `files`. */
  function FolderOf(dateDir: string, files: seq<string>, meta: map<string, Metadata>): seq<Image>
  {
    var (order, groups) := Grouped(Names(files));
    FolderImages(dateDir, order, groups, meta)
  }

  /** One more entry of the vision folder: a failure fails the listing, a
      folder adds its entries, anything else adds nothing. */
  lemma AllImagesStep(entries: seq<Entry>, i: nat, meta: map<string, Metadata>)
    requires i < |entries|
    ensures var e := entries[i];
      var prev := AllImages(entries[..i], meta);
      AllImages(entries[..i + 1], meta) ==
        if prev.None? || Fails(e) then None
        else if e.kind.Other? then prev
        else Some(prev.value + FolderOf(e.name, e.kind.listing.value, meta))
  {
    assert entries[..i + 1][..i] == entries[..i];
  }

  /** Every listed entry is an image file of some dated folder, served from
      that folder. */
  lemma {:induction false} AllImagesFromFolders(entries: seq<Entry>, meta: map<string, Metadata>)
    requires AllImages(entries, meta).Some?
    ensures forall img :: img in AllImages(entries, meta).value ==>
      exists e, f :: e in entries && e.kind.Folder? && e.kind.listing.Some? && f in e.kind.listing.value &&
        IsImageExt(Ext(f)) && img.path == VisionRoot + e.name + "/" + f
  {
    if entries != [] {
      var init := entries[..|entries| - 1];
      var e := entries[|entries| - 1];
      assert forall i :: 0 <= i < |init| ==> init[i] == entries[i];
      AllImagesFromFolders(init, meta);
      assert forall x :: x in init ==> x in entries;
      if e.kind.Folder? {
        var prev := AllImages(init, meta).value;
        var folder := FolderOf(e.name, e.kind.listing.value, meta);
        assert AllImages(entries, meta).value == prev + folder;
        FolderImagesFromFiles(e.name, e.kind.listing.value, meta);
        forall img: Image | img in prev + folder
          ensures exists x, f :: x in entries && x.kind.Folder? && x.kind.listing.Some? && f in x.kind.listing.value &&
                                 IsImageExt(Ext(f)) && img.path == VisionRoot + x.name + "/" + f
        {
          if img in prev {
          } else {
            assert img in folder;
            assert e in entries;
          }
        }
      }
    }
  }

  /** The handler: `root` is the vision folder's listing, `None` when it
      cannot be read; any failure gives no images. */
  method ListImages(root: Option<seq<Entry>>, meta: map<string, Metadata>) returns (images: seq<Image>)
    ensures root.None? ==> images == []
    ensures root.Some? && AllImages(root.value, meta).None? ==> images == []
    ensures root.Some? && AllImages(root.value, meta).Some? ==> images == AllImages(root.value, meta).value
  {
    images := [];
    if root.None? {
      return;
    }
    var entries := root.value;
    var failed := false;
    var i := 0;
    while i < |entries| && !failed
      invariant 0 <= i <= |entries|
      invariant !failed ==> AllImages(entries[..i], meta) == Some(images)
      invariant failed ==> 0 < i && Fails(entries[i - 1])
    {
      var e := entries[i];
      AllImagesStep(entries, i, meta);
      if Fails(e) {
        failed := true;
      } else if e.kind.Folder? {
        var found := ListFolder(e.name, e.kind.listing.value, meta);
        images := images + found;
      }
      i := i + 1;
    }
    if failed {
      images := [];
    } else {
      assert entries[..|entries|] == entries;
    }
  }
}
