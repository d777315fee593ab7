/** `ShaderSource.Parse` and `CreateNullSource`: finding the `#version` and
    `#include` directives of one shader file and commenting them out in
    place, so that no line break is added or removed.

    The directives are found by the multiline patterns that
    `DirectiveRegex` models: the version string is group 1 of the first
    `#version` match, the include paths are group 1 of every `#include`
    match, trimmed, and the parsed code comments out every `#include` match
    and then every `#version` match of the result. */
module SourceParse {
  import opened Wrappers
  import opened Text
  import opened Gl
  import opened DirectiveRegex

  const NullSourceName: string := "Null source file"

  /** The parsed state of one source file (the graph edges are kept by the
      include graph, keyed by file name). */
  datatype SourceNode = SourceNode(parsedCode: string, versionString: string, dependencies: seq<string>)

  datatype Parsed = Parsed(versionString: string, includes: seq<string>, parsedCode: string, messages: seq<Event>)

  /** The paths the repository is asked for: every `#include` argument,
      trimmed. */
  function IncludePaths(source: string): (paths: seq<string>)
    ensures |paths| == |Matches(source, Include)|
  {
    var gs := Groups(source, Include);
    seq(|gs|, i requires 0 <= i < |gs| => Trim(gs[i]))
  }

  /** `ParsedCode`: the "\r\n"-normalised source with every `#include`
      match, then every `#version` match of the result, wrapped in a
      comment. */
  function ParsedCode(source: string): string {
    Replace(Replace(ReplaceCrLf(source), Include), Version)
  }

  /** The diagnostics `Parse` prints about the `#version` lines it found:
      a debug note for none, one warning for more than one. */
  function VersionMessages(filename: string, versionCount: nat): (ms: seq<Event>)
    ensures |ms| == (if versionCount == 1 then 0 else 1)
    ensures forall m | m in ms :: m.Print? && (m.kind == Warning <==> versionCount > 1) && (m.kind == Debug <==> versionCount == 0)
  {
    if versionCount == 0 then [Print(Debug, "Shader source " + filename + " contains no #version statement!")]
    else if versionCount > 1 then [Print(Warning, "Shader source " + filename + " contains multiple #version statements!")]
    else []
  }

  /** `ShaderSource.Parse`. The include paths are what the repository is
      asked for (`GetShaderSource`) and linked to (`AddDependency`). */
  function Parse(filename: string, defaultVersion: string, source: string): (p: Parsed)
    ensures var versions := Groups(source, Version);
      && (|versions| > 0 ==> p.versionString == versions[0])
      && (|versions| == 0 ==> p.versionString == defaultVersion)
      && p.messages == VersionMessages(filename, |versions|)
    ensures |p.includes| == |Matches(source, Include)|
    ensures forall i | 0 <= i < |p.includes| :: p.includes[i] == Trim(Groups(source, Include)[i])
    ensures NewlineCount(p.parsedCode) == NewlineCount(source)
  {
    var versions := Groups(source, Version);
    ParsedCodeRestores(source);
    Parsed(if |versions| > 0 then versions[0] else defaultVersion,
           IncludePaths(source),
           ParsedCode(source),
           VersionMessages(filename, |versions|))
  }

  /** `CreateNullSource`: an empty file with the given version. */
  function CreateNullSource(versionString: string): (n: SourceNode)
    ensures Lines(n.parsedCode) == [""] && n.dependencies == []
    ensures n.versionString == versionString
  {
    SourceNode("", versionString, [])
  }

  /** The parsed code has the source's line breaks, and deleting the
      delimiters each pass inserted gives back that pass's input: the
      normalised source for the `#include` pass, its output for the
      `#version` pass. */
  lemma ParsedCodeRestores(source: string)
    ensures var normal := ReplaceCrLf(source);
      var once := Replace(normal, Include);
      && Original(Pieces(normal, 0, Matches(normal, Include))) == normal
      && Original(Pieces(once, 0, Matches(once, Version))) == once
      && NewlineCount(ParsedCode(source)) == NewlineCount(source)
  {
    var normal := ReplaceCrLf(source);
    ReplaceRestores(normal, Include);
    ReplaceRestores(Replace(normal, Include), Version);
  }

  /** Every directive is inside a comment: each `#include` start of the
      normalised source lies in an `#include` match, and each `#version`
      start of the first pass's output in a `#version` match; a match
      reaches at least to the end of its keyword's line. */
  lemma ParsedCodeCommentsDirectives(source: string)
    ensures var normal := ReplaceCrLf(source);
      AllCovered(normal, Include) && AllCovered(Replace(normal, Include), Version)
  {
    var normal := ReplaceCrLf(source);
    EveryDirectiveCovered(normal, Include);
    EveryDirectiveCovered(Replace(normal, Include), Version);
  }
}
