/** Registry setup (packages/core/src/init.ts): the registry directory and
    its sub-directories, template copying and the AGENTS.md append. The
    marker block is `MarkerBlock`, the settings merge `HookSettings` and
    the installers' bookkeeping `Integration`. The filesystem is the
    abstract `Fs`. */
module Init {
  import opened Wrappers
  import opened Text
  import opened Seqs
  import opened FsUtils
  import opened MarkerBlock

  // ---------------------------------------------------------------------
  // AGENTS.md

  const AgentsMarker: string := "# Agent Instructions: Bebop"

  /** `copyOrAppendAgentsFile`: the text to write to the registry's
      AGENTS.md, or `None` when nothing is written. */
  function AgentsUpdate(existing: Option<string>, source: Option<string>): (r: Option<string>)
    ensures source.None? ==> r.None?
    ensures source.Some? && existing.None? ==> r == source
    ensures existing.Some? && Contains(existing.value, AgentsMarker) ==> r.None?
  {
    match source
    case None => None
    case Some(src) =>
      match existing
      case None => Some(src)
      case Some(text) =>
        if Contains(text, AgentsMarker) then None
        else
          var separator := if EndsWith(text, "\n") then "\n---\n\n" else "\n\n---\n\n";
          Some(text + separator + src)
  }

  /** `text` with its last line terminated. */
  function Terminated(text: string): string {
    if EndsWith(text, "\n") then text else text + "\n"
  }

  /** An append keeps the existing text, ends its last line, and puts a
      `---` rule between a blank line before and after it and the bundled
      instructions. */
  lemma AgentsAppendShape(existing: string, source: string)
    requires !Contains(existing, AgentsMarker)
    ensures AgentsUpdate(Some(existing), Some(source)) == Some(Terminated(existing) + "\n---\n\n" + source)
  {
    if !EndsWith(existing, "\n") {
      assert existing + "\n\n---\n\n" + source == existing + "\n" + "\n---\n\n" + source;
    }
  }

  /** Once the bundled instructions (which carry the marker) are in the
      file, running `init` again appends nothing. */
  lemma AgentsAppendOnce(existing: Option<string>, source: string)
    requires Contains(source, AgentsMarker)
    ensures AgentsUpdate(existing, Some(source)).Some? ==>
      AgentsUpdate(AgentsUpdate(existing, Some(source)), Some(source)).None?
  {
    var k := IndexOfFrom(source, AgentsMarker, 0).value;
    if existing.Some? && !Contains(existing.value, AgentsMarker) {
      var text := existing.value;
      var separator := if EndsWith(text, "\n") then "\n---\n\n" else "\n\n---\n\n";
      assert AgentsUpdate(existing, Some(source)) == Some(text + separator + source);
      OccursAfter(text + separator, source, AgentsMarker, k);
      ContainsWitness(text + separator + source, AgentsMarker, |text + separator| + k);
    }
  }

  /** The first `init` writes the instructions whenever they are bundled
      and the file does not already carry them. */
  lemma AgentsWritten(existing: Option<string>, source: string)
    ensures AgentsUpdate(existing, Some(source)).Some? <==> existing.None? || !Contains(existing.value, AgentsMarker)
  {
  }

  // ---------------------------------------------------------------------
  // Templates and registry directories

  /** The names `readdir(dir)` lists, `None` when it throws. */
  function ListNames(fs: Fs, dir: Path): Option<seq<string>> {
    if dir in fs.listing then
      var entries := fs.listing[dir];
      Some(seq(|entries|, i requires 0 <= i < |entries| => entries[i].name))
    else None
  }

  /** The entries `copyTemplateDir` copies, in listing order: a regular
      file whose destination does not exist yet. */
  function ToCopy(fs: Fs, sourceDir: Path, destDir: Path, names: seq<string>): (r: seq<Path>)
    decreases |names|
  {
    if names == [] then []
    else
      var rest := ToCopy(fs, sourceDir, destDir, names[..|names| - 1]);
      var name := names[|names| - 1];
      if !Exists(fs, destDir + [name]) && sourceDir + [name] in fs.files then rest + [destDir + [name]]
      else rest
  }

  /** What gets copied is exactly the new destinations of regular files. */
  lemma {:induction false} ToCopyExact(fs: Fs, sourceDir: Path, destDir: Path, names: seq<string>, p: Path)
    ensures p in ToCopy(fs, sourceDir, destDir, names) <==>
      exists k :: 0 <= k < |names| && p == destDir + [names[k]]
        && !Exists(fs, destDir + [names[k]]) && sourceDir + [names[k]] in fs.files
    decreases |names|
  {
    if names != [] {
      var init := names[..|names| - 1];
      ToCopyExact(fs, sourceDir, destDir, init, p);
      if p in ToCopy(fs, sourceDir, destDir, init) {
        var k :| 0 <= k < |init| && p == destDir + [init[k]]
          && !Exists(fs, destDir + [init[k]]) && sourceDir + [init[k]] in fs.files;
        assert names[k] == init[k];
      }
      if exists k :: 0 <= k < |names| && p == destDir + [names[k]]
           && !Exists(fs, destDir + [names[k]]) && sourceDir + [names[k]] in fs.files {
        var k :| 0 <= k < |names| && p == destDir + [names[k]]
          && !Exists(fs, destDir + [names[k]]) && sourceDir + [names[k]] in fs.files;
        if k < |init| {
          assert init[k] == names[k];
        }
      }
    }
  }

  /** `copyTemplateDir(sourceDir, destDir)`: the destinations it copies to;
      `None` when the source exists but cannot be listed. */
  method CopyTemplateDir(fs: Fs, sourceDir: Path, destDir: Path) returns (copied: Option<seq<Path>>)
    ensures !Exists(fs, sourceDir) ==> copied == Some([])
    ensures Exists(fs, sourceDir) ==> (copied.None? <==> ListNames(fs, sourceDir).None?)
    ensures copied.Some? && Exists(fs, sourceDir) ==>
      copied.value == ToCopy(fs, sourceDir, destDir, ListNames(fs, sourceDir).value)
    ensures copied.Some? ==> forall p :: p in copied.value ==> !Exists(fs, p)
  {
    if !Exists(fs, sourceDir) {
      return Some([]);
    }
    var listed := ListNames(fs, sourceDir);
    if listed.None? {
      return None;
    }
    var names := listed.value;
    var result: seq<Path> := [];
    var i := 0;
    while i < |names|
      invariant 0 <= i <= |names|
      invariant result == ToCopy(fs, sourceDir, destDir, names[..i])
      invariant forall p :: p in result ==> !Exists(fs, p)
    {
      assert names[..i + 1][..i] == names[..i];
      var destPath := destDir + [names[i]];
      if !Exists(fs, destPath) && sourceDir + [names[i]] in fs.files {
        result := result + [destPath];
      }
      i := i + 1;
    }
    assert names[..i] == names;
    return Some(result);
  }

  /** `DEFAULT_REGISTRY_DIRS`. */
  const RegistrySubdirs: seq<string> := ["packs", "plans", "sessions", "projects", "logs"]

  /** The registry directories `initRegistry` creates: those that did not
      exist, in the fixed order. */
  function CreatedDirs(fs: Fs, registry: Path, names: seq<string>): (r: seq<Path>)
    ensures |r| <= |names|
    ensures forall p :: p in r ==> !Exists(fs, p)
    decreases |names|
  {
    if names == [] then []
    else
      var rest := CreatedDirs(fs, registry, names[..|names| - 1]);
      var full := registry + [names[|names| - 1]];
      if Exists(fs, full) then rest else rest + [full]
  }

  /** A registry directory is reported created exactly when it was
      missing. */
  lemma {:induction false} CreatedExactly(fs: Fs, registry: Path, names: seq<string>, name: string)
    requires name in names
    ensures registry + [name] in CreatedDirs(fs, registry, names) <==> !Exists(fs, registry + [name])
    decreases |names|
  {
    var init := names[..|names| - 1];
    var last := names[|names| - 1];
    if name in init {
      CreatedExactly(fs, registry, init, name);
    } else {
      assert name == last;
    }
  }

  /** `options.registryPath || path.join(os.homedir(), '.bebop')`. The option
      is the text the caller passed; `toPath` is how that text names a
      directory. Only the empty text is falsy, so `"/"` is used as given. */
  function RegistryPath(explicit: Option<string>, toPath: string -> Path, home: Path): (r: Path)
    ensures explicit.Some? && explicit.value != "" ==> r == toPath(explicit.value)
    ensures explicit.None? || explicit.value == "" ==> |r| == |home| + 1 && r[..|home|] == home && r[|home|] == ".bebop"
  {
    if explicit.Some? && explicit.value != "" then toPath(explicit.value) else home + [".bebop"]
  }
}
