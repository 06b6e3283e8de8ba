/**
 The context and documentation bundles: how each is assembled for a request, and the check that
 refuses it before spawn unless it is exactly what the intent recorded.
 */
module Bundles {
  import opened Prelude

  type Blob = seq<int>

  /** The codec and digest the bundles rest on. `text` is UTF-8 decoding and `bytes` its inverse. */
  datatype Codec<!M> = Codec(
    custody: Blob -> string,
    text: Blob -> Option<string>,
    bytes: string -> Blob,
    serialize: M -> string,
    parse: string -> Option<M>)

  ghost predicate Decodes<M>(c: Codec<M>) {
    forall b :: c.text(b).Some? ==> c.bytes(c.text(b).value) == b
  }

  ghost predicate DigestIsInjective<M>(c: Codec<M>) {
    && (forall a, b :: c.custody(a) == c.custody(b) ==> a == b)
    && (forall s, t :: c.bytes(s) == c.bytes(t) ==> s == t)
  }

  // ---- The context bundle ----

  datatype ManifestPage = ManifestPage(repository: string, pageDigest: string, custody: string, withheld: bool)

  datatype Manifest = Manifest(pages: seq<ManifestPage>, digest: string)

  datatype BundlePage = BundlePage(repository: string, pageDigest: string, custody: string, bytes: string)

  datatype ContextBundle = ContextBundle(manifest: string, digest: string, pages: seq<BundlePage>)

  datatype BundleError =
    | ManifestDigest
    | ManifestUnreadable
    | ManifestDiffers
    | Presence
    | Missing(pageDigest: string)
    | Custody(pageDigest: string)
    | Unexpected(pageDigest: string)

  function Delivered(m: Manifest): seq<ManifestPage> {
    Filter((p: ManifestPage) => !p.withheld, m.pages)
  }

  /** The page `b` is the delivered page `p` with text whose digest is the recorded one. */
  ghost predicate Carries(c: Codec<Manifest>, b: BundlePage, p: ManifestPage) {
    && b.repository == p.repository && b.pageDigest == p.pageDigest && b.custody == p.custody
    && c.custody(c.bytes(b.bytes)) == p.custody
  }

  ghost predicate CarriesAll(c: Codec<Manifest>, pages: seq<BundlePage>, expected: seq<ManifestPage>) {
    |pages| == |expected| && forall i :: 0 <= i < |pages| ==> Carries(c, pages[i], expected[i])
  }

  /** The retained bytes of `p` can be carried. */
  predicate Retained(c: Codec<Manifest>, read: string -> Option<Blob>, p: ManifestPage) {
    var blob := read(p.custody);
    blob.Some? && c.custody(blob.value) == p.custody && c.text(blob.value).Some?
  }

  /** `pages` carry `expected`, each page the retained bytes themselves. */
  ghost predicate CarriesRetained(c: Codec<Manifest>, read: string -> Option<Blob>, pages: seq<BundlePage>,
                                  expected: seq<ManifestPage>) {
    && CarriesAll(c, pages, expected)
    && forall i :: 0 <= i < |pages| ==> Some(c.bytes(pages[i].bytes)) == read(expected[i].custody)
  }

  lemma CarriesOneMore(c: Codec<Manifest>, read: string -> Option<Blob>, pages: seq<BundlePage>,
                       expected: seq<ManifestPage>, p: ManifestPage)
    requires Decodes(c) && Retained(c, read, p) && CarriesRetained(c, read, pages, expected)
    ensures var text := c.text(read(p.custody).value).value;
            CarriesRetained(c, read, pages + [BundlePage(p.repository, p.pageDigest, p.custody, text)], expected + [p])
  {
  }

  method AssembleContext(c: Codec<Manifest>, m: Manifest, read: string -> Option<Blob>)
    returns (r: Result<ContextBundle, BundleError>)
    requires Decodes(c)
    ensures r.Ok? <==> forall i :: 0 <= i < |Delivered(m)| ==> Retained(c, read, Delivered(m)[i])
    ensures r.Err? ==> exists i :: 0 <= i < |Delivered(m)| && !Retained(c, read, Delivered(m)[i])
                         && (forall k :: 0 <= k < i ==> Retained(c, read, Delivered(m)[k]))
                         && r.error == if read(Delivered(m)[i].custody).None? then Missing(Delivered(m)[i].pageDigest)
                                       else Custody(Delivered(m)[i].pageDigest)
    ensures r.Ok? ==>
              && r.value.manifest == c.serialize(m) && r.value.digest == m.digest
              && CarriesRetained(c, read, r.value.pages, Delivered(m))
  {
    hide Delivered, Decodes, CarriesRetained;
    var expected := Delivered(m);
    var pages: seq<BundlePage> := [];
    NothingCarried(c, read);
    assert expected[..0] == [];
    for i := 0 to |expected|
      invariant forall k :: 0 <= k < i ==> Retained(c, read, expected[k])
      invariant CarriesRetained(c, read, pages, expected[..i])
    {
      var p := expected[i];
      assert expected[..i + 1] == expected[..i] + [p];
      var blob := read(p.custody);
      if blob.None? {
        assert !Retained(c, read, expected[i]);
        return Err(Missing(p.pageDigest));
      }
      if c.custody(blob.value) != p.custody || c.text(blob.value).None? {
        assert !Retained(c, read, expected[i]);
        return Err(Custody(p.pageDigest));
      }
      CarriesOneMore(c, read, pages, expected[..i], p);
      pages := pages + [BundlePage(p.repository, p.pageDigest, p.custody, c.text(blob.value).value)];
    }
    assert expected[..|expected|] == expected;
    r := Ok(ContextBundle(c.serialize(m), m.digest, pages));
  }

  lemma NothingCarried(c: Codec<Manifest>, read: string -> Option<Blob>)
    ensures CarriesRetained(c, read, [], [])
  {
  }

  /** `computed` is the digest construction over a manifest's own members. */
  ghost predicate SoundContext(c: Codec<Manifest>, computed: Manifest -> string, b: ContextBundle, m: Manifest) {
    && b.digest == m.digest && c.parse(b.manifest) == Some(m) && computed(m) == m.digest
    && CarriesAll(c, b.pages, Delivered(m))
  }

  /** Pages agree with those expected up to `i`, where a page is extra, another one, or of other bytes. */
  ghost predicate PageRefused(c: Codec<Manifest>, pages: seq<BundlePage>, expected: seq<ManifestPage>, i: nat,
                              e: BundleError) {
    && i <= |pages| && i <= |expected|
    && (forall k :: 0 <= k < i ==> Carries(c, pages[k], expected[k]))
    && match e
       case Unexpected(d) =>
         && i < |pages| && d == pages[i].pageDigest
         && (i < |expected| ==> pages[i].pageDigest != expected[i].pageDigest
                                || pages[i].repository != expected[i].repository
                                || pages[i].custody != expected[i].custody)
       case Custody(d) =>
         && i < |pages| && i < |expected| && d == pages[i].pageDigest
         && pages[i].pageDigest == expected[i].pageDigest && pages[i].repository == expected[i].repository
         && pages[i].custody == expected[i].custody && c.custody(c.bytes(pages[i].bytes)) != expected[i].custody
       case Missing(d) => i == |pages| && i < |expected| && d == expected[i].pageDigest
       case _ => false
  }

  /** The refusal `e` is the first that applies, in the order the check reads the bundle. */
  ghost predicate RefusedFor(c: Codec<Manifest>, computed: Manifest -> string, bundle: Option<ContextBundle>,
                             recorded: Option<Manifest>, e: BundleError) {
    if bundle.None? || recorded.None? then e == Presence && (bundle.Some? || recorded.Some?)
    else
      var b, m := bundle.value, recorded.value;
      if b.digest != m.digest then e == ManifestDigest
      else if c.parse(b.manifest).None? then e == ManifestUnreadable
      else if c.parse(b.manifest) != Some(m) || computed(m) != m.digest then e == ManifestDiffers
      else exists i :: PageRefused(c, b.pages, Delivered(m), i, e)
  }

  method CheckContext(c: Codec<Manifest>, computed: Manifest -> string,
                      bundle: Option<ContextBundle>, recorded: Option<Manifest>)
    returns (r: Result<(), BundleError>)
    ensures r.Ok? <==>
            || (bundle.None? && recorded.None?)
            || (bundle.Some? && recorded.Some? && SoundContext(c, computed, bundle.value, recorded.value))
    ensures r.Err? ==> RefusedFor(c, computed, bundle, recorded, r.error)
  {
    if bundle.None? && recorded.None? {
      return Ok(());
    }
    if bundle.None? || recorded.None? {
      return Err(Presence);
    }
    var b, m := bundle.value, recorded.value;
    if b.digest != m.digest {
      return Err(ManifestDigest);
    }
    var carried := c.parse(b.manifest);
    if carried.None? {
      return Err(ManifestUnreadable);
    }
    if carried.value != m || computed(carried.value) != m.digest {
      return Err(ManifestDiffers);
    }
    var fault := CheckPages(c, b.pages, Delivered(m));
    if fault.Some? {
      return Err(fault.value);
    }
    r := Ok(());
  }

  method CheckPages(c: Codec<Manifest>, pages: seq<BundlePage>, expected: seq<ManifestPage>)
    returns (fault: Option<BundleError>)
    ensures fault.None? <==> CarriesAll(c, pages, expected)
    ensures fault.Some? ==> exists i :: PageRefused(c, pages, expected, i, fault.value)
  {
    for i := 0 to |pages|
      invariant i <= |expected| && forall k :: 0 <= k < i ==> Carries(c, pages[k], expected[k])
    {
      var page := pages[i];
      if i >= |expected| {
        assert PageRefused(c, pages, expected, i, Unexpected(page.pageDigest));
        return Some(Unexpected(page.pageDigest));
      }
      var want := expected[i];
      if page.pageDigest != want.pageDigest || page.repository != want.repository || page.custody != want.custody {
        assert !Carries(c, pages[i], expected[i]);
        assert PageRefused(c, pages, expected, i, Unexpected(page.pageDigest));
        return Some(Unexpected(page.pageDigest));
      }
      if c.custody(c.bytes(page.bytes)) != want.custody {
        assert !Carries(c, pages[i], expected[i]);
        assert PageRefused(c, pages, expected, i, Custody(page.pageDigest));
        return Some(Custody(page.pageDigest));
      }
    }
    if |pages| < |expected| {
      assert PageRefused(c, pages, expected, |pages|, Missing(expected[|pages|].pageDigest));
      return Some(Missing(expected[|pages|].pageDigest));
    }
    fault := None;
  }

  /**
   An assembled bundle passes the check exactly when the recorded manifest reads back from its
   own serialization and states its own digest: nothing about the pages can make it fail.
   */
  lemma AssembledContextChecks(c: Codec<Manifest>, computed: Manifest -> string, m: Manifest, b: ContextBundle)
    requires b.manifest == c.serialize(m) && b.digest == m.digest && CarriesAll(c, b.pages, Delivered(m))
    ensures SoundContext(c, computed, b, m) <==> c.parse(c.serialize(m)) == Some(m) && computed(m) == m.digest
  {
  }

  /** With an injective digest, a bundle that passes the check is page for page the assembled one. */
  lemma CheckedContextIsAssembled(c: Codec<Manifest>, computed: Manifest -> string, m: Manifest,
                                  b: ContextBundle, assembled: ContextBundle)
    requires DigestIsInjective(c)
    requires SoundContext(c, computed, b, m) && CarriesAll(c, assembled.pages, Delivered(m))
    ensures b.pages == assembled.pages
  {
    forall i | 0 <= i < |b.pages| ensures b.pages[i] == assembled.pages[i] {
      var want := Delivered(m)[i];
      assert Carries(c, b.pages[i], want) && Carries(c, assembled.pages[i], want);
      assert c.bytes(b.pages[i].bytes) == c.bytes(assembled.pages[i].bytes);
    }
  }

  // ---- The documentation bundle ----

  datatype Skill = NotRequired | Pinned(digest: string)

  datatype Task = Task(
    digest: string,
    skill: Skill,
    schemaId: string,
    schemaDigest: string,
    requiredCapabilities: seq<string>)

  datatype SkillBytes = SkillBytes(digest: string, bytes: string)

  datatype TaskBundle = TaskBundle(
    task: string,
    taskDigest: string,
    schema: string,
    schemaDigest: string,
    skill: Option<SkillBytes>)

  datatype TaskError =
    | TaskPresence
    | TaskUnreadable
    | NotTheRecordedTask
    | ResultSchema
    | BadSkill
    | CapabilityUndeclared(token: string)

  function AssembleTask(c: Codec<Task>, schemas: string -> Option<string>, task: Task, skill: Option<Blob>)
    : (r: Result<TaskBundle, TaskError>)
    ensures r.Ok? <==>
            && schemas(task.schemaId).Some?
            && (task.skill.NotRequired? <==> skill.None?)
            && (skill.Some? ==> c.text(skill.value).Some?)
    ensures r.Err? ==>
              r.error == if (task.skill.NotRequired? <==> skill.None?) && (skill.Some? ==> c.text(skill.value).Some?)
                         then ResultSchema else BadSkill
  {
    if task.skill.NotRequired? != skill.None? then Err(BadSkill)
    else if skill.Some? && c.text(skill.value).None? then Err(BadSkill)
    else
      var carried := if skill.None? then None
                     else Some(SkillBytes(c.custody(skill.value), c.text(skill.value).value));
      match schemas(task.schemaId)
      case None => Err(ResultSchema)
      case Some(schema) =>
        Ok(TaskBundle(c.serialize(task), task.digest, schema, c.custody(c.bytes(schema)), carried))
  }

  ghost predicate SoundSkill(c: Codec<Task>, task: Task, skill: Option<SkillBytes>) {
    match task.skill
    case NotRequired => skill.None?
    case Pinned(digest) => skill.Some? && skill.value.digest == digest && c.custody(c.bytes(skill.value.bytes)) == digest
  }

  ghost predicate SoundTask(c: Codec<Task>, schemas: string -> Option<string>, declared: seq<string>,
                            b: TaskBundle, task: Task) {
    && c.parse(b.task) == Some(task) && b.taskDigest == task.digest && b.task == c.serialize(task)
    && schemas(task.schemaId) == Some(b.schema)
    && b.schemaDigest == task.schemaDigest && c.custody(c.bytes(b.schema)) == task.schemaDigest
    && SoundSkill(c, task, b.skill)
    && forall token :: token in task.requiredCapabilities ==> token in declared
  }

  ghost predicate SoundSchema(c: Codec<Task>, schemas: string -> Option<string>, b: TaskBundle, task: Task) {
    && schemas(task.schemaId) == Some(b.schema)
    && b.schemaDigest == task.schemaDigest && c.custody(c.bytes(b.schema)) == task.schemaDigest
  }

  /** The refusal `e` is the first that applies, in the order the check reads the bundle. */
  ghost predicate TaskRefusedFor(c: Codec<Task>, schemas: string -> Option<string>, bundle: Option<TaskBundle>,
                                 recorded: Option<Task>, declared: seq<string>, e: TaskError) {
    if bundle.None? || recorded.None? then e == TaskPresence && (bundle.Some? || recorded.Some?)
    else
      var b, task := bundle.value, recorded.value;
      if c.parse(b.task).None? then e == TaskUnreadable
      else if c.parse(b.task) != Some(task) || b.taskDigest != task.digest || b.task != c.serialize(task)
      then e == NotTheRecordedTask
      else if !SoundSchema(c, schemas, b, task) then e == ResultSchema
      else if !SoundSkill(c, task, b.skill) then e == BadSkill
      else exists k :: 0 <= k < |task.requiredCapabilities| && e == CapabilityUndeclared(task.requiredCapabilities[k])
                       && task.requiredCapabilities[k] !in declared
                       && forall j :: 0 <= j < k ==> task.requiredCapabilities[j] in declared
  }

  method CheckTask(c: Codec<Task>, schemas: string -> Option<string>, bundle: Option<TaskBundle>,
                   recorded: Option<Task>, declared: seq<string>)
    returns (r: Result<(), TaskError>)
    ensures r.Ok? <==>
            || (bundle.None? && recorded.None?)
            || (bundle.Some? && recorded.Some? && SoundTask(c, schemas, declared, bundle.value, recorded.value))
    ensures r.Err? ==> TaskRefusedFor(c, schemas, bundle, recorded, declared, r.error)
  {
    if bundle.None? && recorded.None? {
      return Ok(());
    }
    if bundle.None? || recorded.None? {
      return Err(TaskPresence);
    }
    var b, task := bundle.value, recorded.value;
    var carried := c.parse(b.task);
    if carried.None? {
      return Err(TaskUnreadable);
    }
    if carried.value != task || b.taskDigest != task.digest || b.task != c.serialize(task) {
      return Err(NotTheRecordedTask);
    }
    if schemas(task.schemaId) != Some(b.schema) || b.schemaDigest != task.schemaDigest
       || c.custody(c.bytes(b.schema)) != task.schemaDigest {
      return Err(ResultSchema);
    }
    if task.skill.NotRequired? != b.skill.None? {
      return Err(BadSkill);
    }
    if b.skill.Some? && (b.skill.value.digest != task.skill.digest
                         || c.custody(c.bytes(b.skill.value.bytes)) != task.skill.digest) {
      return Err(BadSkill);
    }
    for i := 0 to |task.requiredCapabilities|
      invariant forall k :: 0 <= k < i ==> task.requiredCapabilities[k] in declared
    {
      if task.requiredCapabilities[i] !in declared {
        return Err(CapabilityUndeclared(task.requiredCapabilities[i]));
      }
    }
    r := Ok(());
  }

  /**
   Assembling compares nothing with what the task pins, so an assembled bundle passes the check
   exactly when the task reads back, the schema and the skill are the pinned ones, and every
   required capability is declared.
   */
  lemma AssembledTaskChecks(c: Codec<Task>, schemas: string -> Option<string>, task: Task, skill: Option<Blob>,
                            declared: seq<string>)
    requires Decodes(c) && AssembleTask(c, schemas, task, skill).Ok?
    ensures SoundTask(c, schemas, declared, AssembleTask(c, schemas, task, skill).value, task) <==>
            && c.parse(c.serialize(task)) == Some(task)
            && c.custody(c.bytes(schemas(task.schemaId).value)) == task.schemaDigest
            && (task.skill.Pinned? ==> c.custody(skill.value) == task.skill.digest)
            && forall token :: token in task.requiredCapabilities ==> token in declared
  {
    if skill.Some? {
      assert c.bytes(c.text(skill.value).value) == skill.value;
    }
  }

  /** A bundle assembled from bytes that are not the pinned skill's, which the check then refuses. */
  lemma AssemblyAcceptsUnpinnedSkill(c: Codec<Task>, schemas: string -> Option<string>, task: Task, skill: Blob)
    requires Decodes(c) && task.skill.Pinned? && c.custody(skill) != task.skill.digest
    requires schemas(task.schemaId).Some? && c.text(skill).Some?
    ensures AssembleTask(c, schemas, task, Some(skill)).Ok?
    ensures forall declared :: !SoundTask(c, schemas, declared, AssembleTask(c, schemas, task, Some(skill)).value, task)
  {
    forall declared
      ensures !SoundTask(c, schemas, declared, AssembleTask(c, schemas, task, Some(skill)).value, task)
    {
      AssembledTaskChecks(c, schemas, task, Some(skill), declared);
    }
  }
}
