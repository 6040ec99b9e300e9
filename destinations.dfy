/** src/config/destinations.rs: the destination configuration, the `!`
    pattern syntax and the built-in defaults. The `Transform` it declares is
    the one modelled in module Transform. A `HashMap` that the program
    iterates over is a sequence here, in the order the map yields it. */
module Destinations {
  import opened Common
  import opened Transform

  /** `glob::Pattern::new` succeeds on exactly the texts this accepts. */
  type GlobCompiles = string -> bool

  datatype PatternParse = Parsed(pattern: Pattern) | Rejected(glob: string)

  /** `impl Deserialize for Pattern`: one leading `!` marks an exclude and is
      dropped; the rest must compile as a glob. */
  function DeserializePattern(s: string, compiles: GlobCompiles): PatternParse
  {
    var exclude := |s| > 0 && s[0] == '!';
    var text := if exclude then s[1..] else s;
    if compiles(text) then Parsed(Pattern(text, exclude)) else Rejected(text)
  }

  /** `impl Serialize for Pattern`. */
  function SerializePattern(p: Pattern): string
  {
    if p.exclude then "!" + p.glob else p.glob
  }

  /** The patterns deserialisation can produce: an include never has a glob
      that itself starts with `!`. */
  predicate Canonical(p: Pattern)
  {
    !p.exclude ==> !(|p.glob| > 0 && p.glob[0] == '!')
  }

  /** How a string is read: `!` selects exclude, the rest (or the whole
      string) is the glob, and a glob that does not compile is rejected. */
  lemma DeserializeMeaning(s: string, compiles: GlobCompiles)
    ensures var r := DeserializePattern(s, compiles);
      && (|s| > 0 && s[0] == '!' ==> (r.Parsed? <==> compiles(s[1..])) && (r.Parsed? ==> r.pattern == Pattern(s[1..], true)))
      && (!(|s| > 0 && s[0] == '!') ==> (r.Parsed? <==> compiles(s)) && (r.Parsed? ==> r.pattern == Pattern(s, false)))
      && (r.Parsed? ==> Canonical(r.pattern))
  {
  }

  /** Every accepted string serialises back to itself. */
  lemma DeserializeThenSerialize(s: string, compiles: GlobCompiles)
    requires DeserializePattern(s, compiles).Parsed?
    ensures SerializePattern(DeserializePattern(s, compiles).pattern) == s
  {
    if |s| > 0 && s[0] == '!' {
      assert "!" + s[1..] == s;
    }
  }

  /** Every pattern deserialisation can produce comes back unchanged after
      serialising and reading again. */
  lemma SerializeThenDeserialize(p: Pattern, compiles: GlobCompiles)
    requires compiles(p.glob) && Canonical(p)
    ensures DeserializePattern(SerializePattern(p), compiles) == Parsed(p)
  {
    if p.exclude {
      assert ("!" + p.glob)[1..] == p.glob;
    }
  }

  /** Only one `!` is stripped: `!!a` is an exclude of the glob `!a`. */
  lemma OnlyOneBangStripped(compiles: GlobCompiles)
    requires compiles("!a")
    ensures DeserializePattern("!!a", compiles) == Parsed(Pattern("!a", true))
  {
    assert "!!a"[1..] == "!a";
  }

  /** An include whose glob starts with `!` (which no string deserialises
      to) does not survive the round trip: it comes back as an exclude. */
  lemma NonCanonicalIncludeFlips(compiles: GlobCompiles)
    requires compiles("a")
    ensures SerializePattern(Pattern("!a", false)) == "!a"
    ensures DeserializePattern("!a", compiles) == Parsed(Pattern("a", true))
  {
    assert "!a"[1..] == "a";
  }

  /** A string whose glob part does not compile is an error naming that glob. */
  lemma InvalidGlobRejected(s: string, compiles: GlobCompiles)
    requires !compiles(if |s| > 0 && s[0] == '!' then s[1..] else s)
    ensures DeserializePattern(s, compiles).Rejected?
  {
  }

  /** `impl Default for Transform`, used by `#[serde(default)]` on
      `SourceSet::transform`. */
  function DefaultTransform(): Transform
  {
    Direct
  }

  /** The transform a source set gets when its `transform` is or is not given. */
  function SourceSetTransform(declared: Option<Transform>): Transform
  {
    match declared
    case Some(t) => t
    case None => DefaultTransform()
  }

  /** A source set that does not name a transform passes every fetched file
      through unchanged. */
  lemma OmittedTransformPassesThrough(file: File, zip: ZipReader, matches: GlobMatch)
    ensures SourceSetTransform(None) == Direct
    ensures Applied(SourceSetTransform(None), file, zip, matches) == Ok(Some(file))
  {
  }

  /** `config::Source`, in the shape src/source.rs matches on. */
  datatype Source =
    | GitHubArtifacts(github: string, workflow: Option<string>, branch: Option<string>, artifact: Option<string>)
    | Modrinth(projectId: string, gameVersion: Option<string>)
    | Url(url: string)
    | LocalPath(path: Path)

  datatype SourceSet = SourceSet(transform: Transform, sources: seq<(string, Source)>)

  datatype Destination = Destination(path: Path, triggers: seq<string>, sources: seq<(string, SourceSet)>)

  /** The pinned Fabric API release: its download directory and its jar. */
  const FabricApiRelease: string := "https://github.com/FabricMC/fabric/releases/download/0.29.3%2B1.16"
  const FabricApiJar: string := "fabric-api-0.29.3+1.16.jar"
  const FabricApiUrl: string := FabricApiRelease + "/" + FabricApiJar

  /** `impl Default for Destinations`. */
  function DefaultDestinations(): map<string, Destination>
  {
    var sources := [("fabric-api", Url(FabricApiUrl))];
    var sourceSets := [("jars", SourceSet(Direct, sources))];
    map["mods" := Destination(Path(["mods"]), ["startup"], sourceSets)]
  }
}
