/** The image generation route: it checks the request, forwards it to the
    Stability AI backend as form data, and stores the returned image together
    with a JSON metadata file, both named after the moment the image arrives. */
module VisionRoute {
  import opened Wrappers
  import opened Text
  import opened MemoryTypes
  import opened TimestampPaths
  import JsonList
  import Files

  const NoPrompt := "No prompt provided"
  const Backend := "stability-ai"

  datatype VisionRequest = VisionRequest(
    prompt: Option<string>,
    negativePrompt: Option<string>,
    aspectRatio: Option<string>,
    seed: Option<int>,
    outputFormat: Option<string>)

  /** `output_format || "png"`. */
  function FormatOf(outputFormat: Option<string>): (format: string)
    ensures format != ""
    ensures Truthy(outputFormat) ==> format == outputFormat.value
  {
    if Truthy(outputFormat) then outputFormat.value else "png"
  }

  // ---------------------------------------------------------------------------
  // The form sent to the backend
  // ---------------------------------------------------------------------------

  /** The fields `buildFormData` may append, in the order it appends them. */
  datatype Field = Prompt | NegativePrompt | AspectRatio | Seed | OutputFormat {
    function Name(): string {
      match this
      case Prompt => "prompt"
      case NegativePrompt => "negative_prompt"
      case AspectRatio => "aspect_ratio"
      case Seed => "seed"
      case OutputFormat => "output_format"
    }

    function Rank(): nat {
      match this
      case Prompt => 0
      case NegativePrompt => 1
      case AspectRatio => 2
      case Seed => 3
      case OutputFormat => 4
    }
  }

  /** A `FormData` as the list of its entries in the order they were appended. */
  type Form = seq<(Field, string)>

  /** `form.get(name)`: the first value appended under the field. */
  function Lookup(form: Form, field: Field): (v: Option<string>)
    ensures v.Some? ==> (field, v.value) in form
    ensures v.None? ==> forall i :: 0 <= i < |form| ==> form[i].0 != field
  {
    if form == [] then None
    else if form[0].0 == field then Some(form[0].1)
    else Lookup(form[1..], field)
  }

  /** An entry appended only when there is a value. */
  function Entry(field: Field, value: Option<string>): Form {
    if value.Some? then [(field, value.value)] else []
  }

  /** The entries `buildFormData` appends, in order. */
  function FormFields(prompt: string, negativePrompt: Option<string>, aspectRatio: Option<string>,
                      seed: Option<int>, outputFormat: Option<string>): Form
  {
    [(Prompt, prompt)] + (Entry(NegativePrompt, OrNull(negativePrompt)) + (Entry(AspectRatio, OrNull(aspectRatio)) +
    (Entry(Seed, if seed.Some? then Some(IntText(seed.value)) else None) +
    [(OutputFormat, FormatOf(outputFormat))])))
  }

  /** The form carries the prompt and the output format always, the negative
      prompt and the aspect ratio exactly when they are non-empty, and the
      seed exactly when it is given. */
  lemma FormFieldsSelected(prompt: string, negativePrompt: Option<string>, aspectRatio: Option<string>,
                           seed: Option<int>, outputFormat: Option<string>)
    ensures var form := FormFields(prompt, negativePrompt, aspectRatio, seed, outputFormat);
      |form| >= 2 && form[0] == (Prompt, prompt) &&
      form[|form| - 1] == (OutputFormat, FormatOf(outputFormat)) &&
      Lookup(form, NegativePrompt) == OrNull(negativePrompt) &&
      Lookup(form, AspectRatio) == OrNull(aspectRatio) &&
      Lookup(form, Seed) == (if seed.Some? then Some(IntText(seed.value)) else None)
  {
    FieldsAfterPrompt(prompt, OrNull(negativePrompt), OrNull(aspectRatio),
                      if seed.Some? then Some(IntText(seed.value)) else None, FormatOf(outputFormat));
  }

  /** The same over the values themselves: each optional field is found in
      its own entry. */
  lemma FieldsAfterPrompt(prompt: string, neg: Option<string>, asp: Option<string>, sd: Option<string>, format: string)
    ensures var form := [(Prompt, prompt)] + (Entry(NegativePrompt, neg) + (Entry(AspectRatio, asp) +
                        (Entry(Seed, sd) + [(OutputFormat, format)])));
      |form| >= 2 && form[0] == (Prompt, prompt) && form[|form| - 1] == (OutputFormat, format) &&
      Lookup(form, NegativePrompt) == neg && Lookup(form, AspectRatio) == asp && Lookup(form, Seed) == sd
  {
    var p := [(Prompt, prompt)];
    var tail := [(OutputFormat, format)];
    var r3 := Entry(Seed, sd) + tail;
    var r2 := Entry(AspectRatio, asp) + r3;
    var r1 := Entry(NegativePrompt, neg) + r2;
    LookupSkips(p, r1, NegativePrompt);
    LookupSkips(p, r1, AspectRatio);
    LookupSkips(p, r1, Seed);
    LookupEntry(NegativePrompt, neg, r2, NegativePrompt);
    LookupEntry(NegativePrompt, neg, r2, AspectRatio);
    LookupEntry(NegativePrompt, neg, r2, Seed);
    LookupEntry(AspectRatio, asp, r3, NegativePrompt);
    LookupEntry(AspectRatio, asp, r3, AspectRatio);
    LookupEntry(AspectRatio, asp, r3, Seed);
    LookupEntry(Seed, sd, tail, NegativePrompt);
    LookupEntry(Seed, sd, tail, AspectRatio);
    LookupEntry(Seed, sd, tail, Seed);
  }

  /** Looking up a field past entries that do not carry it. */
  lemma {:induction false} LookupSkips(a: Form, b: Form, field: Field)
    requires forall i :: 0 <= i < |a| ==> a[i].0 != field
    ensures Lookup(a + b, field) == Lookup(b, field)
    decreases |a|
  {
    if a == [] {
      assert a + b == b;
    } else {
      assert (a + b)[0] == a[0];
      assert (a + b)[1..] == a[1..] + b;
      assert forall i :: 0 <= i < |a[1..]| ==> a[1..][i] == a[i + 1];
      LookupSkips(a[1..], b, field);
    }
  }

  /** Looking up a field after an optional entry: the entry's value when it
      is the entry's field and there is one, otherwise whatever follows has. */
  lemma LookupEntry(field: Field, value: Option<string>, rest: Form, sought: Field)
    ensures Lookup(Entry(field, value) + rest, sought) ==
      if field == sought && value.Some? then value else Lookup(rest, sought)
  {
    if value.None? {
      assert Entry(field, value) + rest == rest;
    } else {
      assert (Entry(field, value) + rest)[1..] == rest;
    }
  }

  /** `buildFormData`. */
  method BuildFormData(prompt: string, negativePrompt: Option<string>, aspectRatio: Option<string>,
                       seed: Option<int>, outputFormat: Option<string>)
    returns (form: Form)
    ensures form == FormFields(prompt, negativePrompt, aspectRatio, seed, outputFormat)
  {
    form := [(Prompt, prompt)];
    if Truthy(negativePrompt) {
      form := form + [(NegativePrompt, negativePrompt.value)];
    }
    if Truthy(aspectRatio) {
      form := form + [(AspectRatio, aspectRatio.value)];
    }
    if seed.Some? {
      form := form + [(Seed, IntText(seed.value))];
    }
    form := form + [(OutputFormat, FormatOf(outputFormat))];
  }

  // ---------------------------------------------------------------------------
  // The metadata file
  // ---------------------------------------------------------------------------

  /** One `"key": value` line of `JSON.stringify(metadata, null, 2)`. */
  function Member(key: string, value: string): string {
    "  " + JsonList.Quote(key) + ": " + value
  }

  /** A member that `JSON.stringify` leaves out when its value is undefined. */
  function Optional(key: string, value: Option<string>): seq<string> {
    if value.Some? then [Member(key, value.value)] else []
  }

  function QuoteOption(s: Option<string>): Option<string> {
    if s.Some? then Some(JsonList.Quote(s.value)) else None
  }

  /** The metadata written beside the image, keys in declaration order. */
  function MetadataJson(prompt: string, negativePrompt: Option<string>, seed: Option<int>,
                        timestamp: string, aspectRatio: Option<string>, format: string): string
  {
    var members :=
      [Member("prompt", JsonList.Quote(prompt))] +
      Optional("negativePrompt", QuoteOption(negativePrompt)) +
      Optional("seed", if seed.Some? then Some(IntText(seed.value)) else None) +
      [Member("timestamp", JsonList.Quote(timestamp)), Member("backend", JsonList.Quote(Backend))] +
      Optional("aspectRatio", QuoteOption(aspectRatio)) +
      [Member("outputFormat", JsonList.Quote(format))];
    "{\n" + Join(members, ",\n") + "\n}"
  }

  // ---------------------------------------------------------------------------
  // The metadata path
  // ---------------------------------------------------------------------------

  /** The metadata path as the route computes it: the first `.<format>` of the
      image path, wherever it is, becomes `.json`. */
  function MetadataPath(imagePath: string, format: string): string {
    ReplaceFirst(imagePath, "." + format, ".json")
  }

  /** The metadata path as intended: the image path with its extension
      `.<format>` swapped for `.json`, so the two files sit side by side. */
  function SidecarPath(imagePath: string, format: string): (p: string)
    requires EndsWith(imagePath, "." + format)
    ensures EndsWith(p, ".json")
    ensures p[..|p| - 5] == imagePath[..|imagePath| - |format| - 1]
  {
    imagePath[..|imagePath| - |format| - 1] + ".json"
  }

  /** With no `.` before the extension, the route's replacement is the
      intended one. */
  lemma {:induction false} ReplacementAtExtension(stem: string, format: string)
    requires '.' !in stem
    ensures EndsWith(stem + ("." + format), "." + format)
    ensures MetadataPath(stem + ("." + format), format) == SidecarPath(stem + ("." + format), format) == stem + ".json"
  {
    var ext := "." + format;
    var image := stem + ext;
    forall j: nat | j < |stem|
      ensures !OccursAt(image, ext, j)
    {
      assert image[j] == stem[j];
    }
    assert OccursAt(image, ext, |stem|);
    assert FirstFrom(image, ext, 0) == Some(|stem|);
    assert image[..|stem|] == stem;
  }

  /** Joining a name that ends in `x` is joining the name and then adding `x`. */
  lemma JoinPathAppend(dir: string, name: string, x: string)
    ensures JoinPath(dir, name + x) == JoinPath(dir, name) + x
  {
    if dir != "" {
      assert (dir + "/") + (name + x) == ((dir + "/") + name) + x;
    }
  }

  /** With no `.` in the base directory, the metadata file sits beside the
      image and differs from it only in its extension. */
  lemma MetadataBesideImage(basePath: string, t: Instant, format: string)
    requires ValidInstant(t) && '.' !in basePath
    ensures var image := JoinPath(basePath, JoinPath(DatePart(t), TimeName(t) + ("." + format)));
            EndsWith(image, "." + format) &&
            MetadataPath(image, format) == SidecarPath(image, format) &&
            SidecarPath(image, format) == JoinPath(basePath, JoinPath(DatePart(t), TimeName(t) + ".json"))
  {
    var name := TimeName(t);
    DigitsLack(Decimal(t.year), '.'); DigitsLack(Pad2(t.month), '.'); DigitsLack(Pad2(t.day), '.');
    DigitsLack(Pad2(t.hour), '.'); DigitsLack(Pad2(t.minute), '.'); DigitsLack(Pad2(t.second), '.');
    DigitsLack(Pad3(t.millis), '.');
    assert '.' !in DatePart(t);
    assert '.' !in name;
    var stem := JoinPath(basePath, JoinPath(DatePart(t), name));
    JoinPathAppend(DatePart(t), name, "." + format);
    JoinPathAppend(basePath, JoinPath(DatePart(t), name), "." + format);
    JoinPathAppend(DatePart(t), name, ".json");
    JoinPathAppend(basePath, JoinPath(DatePart(t), name), ".json");
    assert '.' !in stem;
    ReplacementAtExtension(stem, format);
  }

  const PngSuffix := ".png"

  /** The first `.png` of a dot-free `dir` followed by `.png` is right
      after `dir`. */
  lemma FirstPngAfter(dir: string, after: string)
    requires '.' !in dir
    ensures FirstFrom(dir + PngSuffix + after, PngSuffix, 0) == Some(|dir|)
  {
    var image := dir + PngSuffix + after;
    forall j: nat | j < |dir|
      ensures !OccursAt(image, PngSuffix, j)
    {
      assert image[j] == dir[j];
    }
    assert image[|dir|..|dir| + 4] == PngSuffix;
    assert OccursAt(image, PngSuffix, |dir|);
  }

  /** A base directory whose name is a dot-free `dir` followed by `.png`: the
      replacement hits the directory instead of the extension, so the
      metadata goes to a sibling directory `dir.json` and keeps the `.png`
      extension. */
  lemma ReplacementHitsDirectory(dir: string, rest: string)
    requires '.' !in dir && EndsWith(rest, PngSuffix)
    ensures EndsWith(dir + PngSuffix + "/" + rest, "." + "png")
    ensures MetadataPath(dir + PngSuffix + "/" + rest, "png") == dir + ".json" + "/" + rest
    ensures MetadataPath(dir + PngSuffix + "/" + rest, "png") != SidecarPath(dir + PngSuffix + "/" + rest, "png")
  {
    var after := "/" + rest;
    var image := dir + PngSuffix + after;
    assert image == dir + PngSuffix + "/" + rest;
    var m := dir + ".json" + after;
    assert m == dir + ".json" + "/" + rest;
    assert "." + "png" == PngSuffix;
    FirstPngAfter(dir, after);
    assert image[..|dir|] == dir;
    assert image[|dir| + 4..] == after;
    assert MetadataPath(image, "png") == m;
    assert m[|m| - 1] == rest[|rest| - 1];
    var p := SidecarPath(image, "png");
    assert p[|p| - 1] == 'n';
  }

  /** The same for a real image path under `x.png`. */
  lemma MetadataPathMissesExtension(t: Instant)
    requires ValidInstant(t)
    ensures var image := JoinPath("x.png", JoinPath(DatePart(t), TimeName(t) + ".png"));
            MetadataPath(image, "png") != SidecarPath(image, "png")
  {
    var rest := JoinPath(DatePart(t), TimeName(t) + ".png");
    assert JoinPath("x.png", rest) == "x" + PngSuffix + "/" + rest;
    ReplacementHitsDirectory("x", rest);
  }

  // ---------------------------------------------------------------------------
  // The handler
  // ---------------------------------------------------------------------------

  /** What the backend answers: the image bytes, or a non-OK status and text. */
  datatype StabilityReply = Image(bytes: string) | Failure(status: nat, text: string)

  datatype VisionReply =
    | Generated(imagePath: string, timestamp: string, prompt: string, seed: Option<int>)
    | Refused(error: string)

  function BackendError(status: nat, text: string): string {
    "Stability AI API error: " + Decimal(status) + " - " + text
  }

  /** Where the route saves the image that arrives at `t`. */
  function SavedImage(basePath: string, t: Instant, format: string): (p: string)
    requires ValidInstant(t)
    ensures EndsWith(p, "." + format)
  {
    JoinPathAppend(DatePart(t), TimeName(t), "." + format);
    JoinPathAppend(basePath, JoinPath(DatePart(t), TimeName(t)), "." + format);
    JoinPath(basePath, JoinPath(DatePart(t), TimeName(t) + ("." + format)))
  }

  /** What the route leaves behind once the form is sent: the reply, and the
      files before and after. The metadata goes to the route's own
      `MetadataPath`; when that write fails (its directory was never made)
      the image is already on disk and the route still answers with the
      error. */
  ghost predicate Responded(before: map<string, string>, beforeStamps: map<string, string>,
                            after: map<string, string>, afterStamps: map<string, string>, reply: VisionReply,
                            request: VisionRequest, basePath: string, t: Instant,
                            backend: StabilityReply, mkdirError: Option<string>, metadataError: Option<string>)
    requires ValidInstant(t) && Truthy(request.prompt)
  {
    (backend.Failure? ==>
       reply == Refused(BackendError(backend.status, backend.text)) &&
       after == before && afterStamps == beforeStamps) &&
    (backend.Image? && mkdirError.Some? ==>
       reply == Refused(mkdirError.value) && after == before && afterStamps == beforeStamps) &&
    (backend.Image? && mkdirError.None? ==>
       var format := FormatOf(request.outputFormat);
       var image := SavedImage(basePath, t, format);
       var metadata := MetadataPath(image, format);
       (metadataError.Some? ==>
          reply == Refused(metadataError.value) &&
          after == before[image := backend.bytes] && afterStamps == beforeStamps - {image}) &&
       (metadataError.None? ==>
          reply == Generated(image, IsoString(t), request.prompt.value, request.seed) &&
          after == before[image := backend.bytes][metadata := MetadataJson(
            request.prompt.value, request.negativePrompt, request.seed, IsoString(t), request.aspectRatio, format)] &&
          afterStamps == beforeStamps - {image} - {metadata}))
  }

  /** Handles one request. `backend` is the backend's answer to the form the
      route sends (`form`, `None` when nothing is sent), `t` the moment the
      image arrives, `mkdirError` the message of a failing `mkdir` and
      `metadataError` the message of a failing metadata write. */
  method Generate(dir: Files.Directory, request: VisionRequest, basePath: string, t: Instant,
                  backend: StabilityReply, mkdirError: Option<string>, metadataError: Option<string>)
    returns (reply: VisionReply, form: Option<Form>)
    requires ValidInstant(t)
    modifies dir
    ensures !Truthy(request.prompt) ==>
      reply == Refused(NoPrompt) && form.None? && dir.files == old(dir.files) && dir.stamps == old(dir.stamps)
    ensures Truthy(request.prompt) ==>
      form == Some(FormFields(request.prompt.value, request.negativePrompt, request.aspectRatio, request.seed,
                              Some(FormatOf(request.outputFormat))))
    ensures Truthy(request.prompt) ==>
      Responded(old(dir.files), old(dir.stamps), dir.files, dir.stamps, reply, request, basePath, t, backend,
                mkdirError, metadataError)
  {
    if !Truthy(request.prompt) {
      reply := Refused(NoPrompt);
      form := None;
    } else {
      var prompt := request.prompt.value;
      var format := FormatOf(request.outputFormat);
      var sent := BuildFormData(prompt, request.negativePrompt, request.aspectRatio, request.seed, Some(format));
      form := Some(sent);
      reply := Respond(dir, request, basePath, t, backend, mkdirError, metadataError);
    }
  }

  /** The route after the form is sent: the backend's failure, the failure of
      `mkdir`, the image saved but its metadata write failing, or both files
      saved. */
  method Respond(dir: Files.Directory, request: VisionRequest, basePath: string, t: Instant,
                 backend: StabilityReply, mkdirError: Option<string>, metadataError: Option<string>)
    returns (reply: VisionReply)
    requires ValidInstant(t) && Truthy(request.prompt)
    modifies dir
    ensures Responded(old(dir.files), old(dir.stamps), dir.files, dir.stamps, reply, request, basePath, t, backend,
                      mkdirError, metadataError)
  {
    if backend.Failure? {
      reply := Refused(BackendError(backend.status, backend.text));
    } else if mkdirError.Some? {
      reply := Refused(mkdirError.value);
    } else {
      var prompt := request.prompt.value;
      var format := FormatOf(request.outputFormat);
      ImagePathsAgree(basePath, t, format);
      var image := RouteImagePath(basePath, IsoString(t), format).value;
      assert image == SavedImage(basePath, t, format);
      var metadata := MetadataPath(image, format);
      dir.WriteFile(image, backend.bytes);
      if metadataError.Some? {
        reply := Refused(metadataError.value);
      } else {
        dir.WriteFile(metadata, MetadataJson(prompt, request.negativePrompt, request.seed, IsoString(t),
                                             request.aspectRatio, format));
        reply := Generated(image, IsoString(t), prompt, request.seed);
      }
    }
  }
}
