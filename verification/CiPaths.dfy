/** How a changed path selects checks: the path rules of `classify` in `xtask/src/ci.rs`. */
module CiPaths {

  /** What a changed path asks for. `Everything` stands for a path without a rule of its own. */
  datatype Change = Nothing | Workflow | Rust | Native | Windows | Everything

  /** Where the first part of a path ends. */
  function PartEnd(path: string): (r: nat)
    ensures r <= |path| && (r < |path| ==> path[r] == '/')
  {
    if path == "" || path[0] == '/' then 0 else 1 + PartEnd(path[1..])
  }

  function Parts(path: string): seq<string>
    decreases |path|
  {
    var end := PartEnd(path);
    if end == |path| then [path] else [path[..end]] + Parts(path[end + 1..])
  }

  predicate StrangePart(part: string) {
    part == "" || part == "." || part == ".."
  }

  predicate Dotted(part: string) {
    part != "" && part[0] == '.'
  }

  predicate AnyStrange(parts: seq<string>) {
    parts != [] && (StrangePart(parts[0]) || AnyStrange(parts[1..]))
  }

  predicate AnyDotted(parts: seq<string>) {
    parts != [] && (Dotted(parts[0]) || AnyDotted(parts[1..]))
  }

  /** Absolute, with a backslash, with an empty or relative part, or with a hidden part below the top. */
  predicate Strange(path: string) {
    var parts := Parts(path);
    || (path != "" && path[0] == '/')
    || '\\' in path
    || AnyStrange(parts)
    || (parts != [] && AnyDotted(parts[1..]))
  }

  /** The place of the last dot of a name, or its length. */
  function LastDot(name: string): nat {
    if name == "" then 0
    else if name[|name| - 1] == '.' then |name| - 1
    else var dot := LastDot(name[..|name| - 1]); if dot == |name| - 1 then |name| else dot
  }

  /** Whether a path's file name has this extension: the text after its last dot, unless that dot begins
      the name. */
  predicate HasExtension(path: string, extension: string) {
    var parts := Parts(path);
    parts != [] && var name := parts[|parts| - 1];
      var dot := LastDot(name);
      0 < dot < |name| && name[dot + 1..] == extension
  }

  const WINDOWS_FILES := {"xtask/src/windows_contracts.rs", "xtask/src/lib.rs", "xtask/src/main.rs"}

  const NATIVE_FILES := {
    "xtask/src/release.rs", "xtask/src/macos_package.rs", "xtask/src/release_ready.rs", "xtask/src/release_queue.rs",
    "xtask/src/release_orchestration.rs", "xtask/src/distribution.rs", "xtask/src/dependencies.rs", "xtask/src/ci.rs"
  }

  function RustChange(path: string): Change {
    if path in WINDOWS_FILES then Windows
    else if path in NATIVE_FILES || "xtask/src/release/" <= path || "xtask/tests/" <= path then Native
    else Rust
  }

  function ChangeOf(path: string): Change {
    if Strange(path) then Everything
    else if path == "README.md" || path == "CHANGELOG.md" || path == ".github/PULL_REQUEST_TEMPLATE.md"
      || ("docs/" <= path && HasExtension(path, "md")) then Nothing
    else if (".github/workflows/" <= path && (HasExtension(path, "yml") || HasExtension(path, "yaml")))
      || path == ".github/actionlint.yaml" then Workflow
    else if "xtask/" <= path && HasExtension(path, "rs") then RustChange(path)
    else Everything
  }

  // ---------------------------------------------------------------- a path for every change

  lemma {:induction false} PartEndFirst(first: string, rest: string)
    requires '/' !in first
    ensures PartEnd(first + ['/'] + rest) == |first|
  {
    if first != "" {
      assert (first + ['/'] + rest)[1..] == first[1..] + ['/'] + rest;
      PartEndFirst(first[1..], rest);
    }
  }

  lemma {:induction false} PartEndOnly(part: string)
    requires '/' !in part
    ensures PartEnd(part) == |part|
  {
    if part != "" {
      PartEndOnly(part[1..]);
    }
  }

  lemma PartsOnly(part: string)
    requires '/' !in part
    ensures Parts(part) == [part]
  {
    PartEndOnly(part);
  }

  lemma PartsFirst(first: string, rest: string)
    requires '/' !in first
    ensures Parts(first + ['/'] + rest) == [first] + Parts(rest)
  {
    var path := first + ['/'] + rest;
    PartEndFirst(first, rest);
    assert path[..|first|] == first && path[|first| + 1..] == rest;
  }

  lemma {:induction false} LastDotOf(stem: string, extension: string)
    requires '.' !in extension
    ensures LastDot(stem + ['.'] + extension) == |stem|
    decreases |extension|
  {
    var name := stem + ['.'] + extension;
    if extension != "" {
      assert name[..|name| - 1] == stem + ['.'] + extension[..|extension| - 1];
      LastDotOf(stem, extension[..|extension| - 1]);
    }
  }

  lemma {:induction false} PlainParts(parts: seq<string>)
    requires forall i :: 0 <= i < |parts| ==> parts[i] != "" && parts[i][0] != '.'
    ensures !AnyStrange(parts) && !AnyDotted(parts)
  {
    if parts != [] {
      PlainParts(parts[1..]);
    }
  }

  /** A path of ordinary parts is not strange, and its extension is the one of its last part. */
  lemma OrdinaryPath(path: string, first: string, rest: seq<string>, stem: string, extension: string)
    requires Parts(path) == [first] + rest && rest != [] && rest[|rest| - 1] == stem + ['.'] + extension
    requires stem != "" && '.' !in extension && '\\' !in path && path != "" && path[0] != '/'
    requires !StrangePart(first)
    requires forall i :: 0 <= i < |rest| ==> rest[i] != "" && rest[i][0] != '.'
    ensures !Strange(path) && HasExtension(path, extension)
  {
    PlainParts(rest);
    assert ([first] + rest)[1..] == rest;
    LastDotOf(stem, extension);
    assert (stem + ['.'] + extension)[|stem| + 1..] == extension;
  }

  predicate PlainPart(part: string) {
    part != "" && part[0] != '.' && '/' !in part && '\\' !in part
  }

  lemma TwoParts(path: string, first: string, stem: string, extension: string)
    requires path == first + ['/'] + (stem + ['.'] + extension)
    requires first != "" && first != "." && first != ".." && '/' !in first && '\\' !in first
    requires PlainPart(stem) && '/' !in extension && '\\' !in extension && '.' !in extension
    ensures !Strange(path) && HasExtension(path, extension)
  {
    var name := stem + ['.'] + extension;
    NameParts(stem, extension);
    PartsFirst(first, name);
    NoBackslash(first, name);
    OrdinaryPath(path, first, [name], stem, extension);
  }

  lemma ThreeParts(path: string, first: string, second: string, stem: string, extension: string)
    requires path == first + ['/'] + (second + ['/'] + (stem + ['.'] + extension))
    requires first != "" && first != "." && first != ".." && '/' !in first && '\\' !in first && PlainPart(second)
    requires PlainPart(stem) && '/' !in extension && '\\' !in extension && '.' !in extension
    ensures !Strange(path) && HasExtension(path, extension)
  {
    var name := stem + ['.'] + extension;
    NameParts(stem, extension);
    PartsFirst(second, name);
    PartsFirst(first, second + ['/'] + name);
    NoBackslash(second, name);
    NoBackslash(first, second + ['/'] + name);
    assert [first] + ([second] + [name]) == [first] + [second, name];
    OrdinaryPath(path, first, [second, name], stem, extension);
  }

  lemma NameParts(stem: string, extension: string)
    requires PlainPart(stem) && '/' !in extension && '\\' !in extension
    ensures var name := stem + ['.'] + extension;
      Parts(name) == [name] && |name| > 1 && name[0] != '.' && '\\' !in name
  {
    var name := stem + ['.'] + extension;
    assert name[0] == stem[0];
    PartsOnly(name);
  }

  lemma NoBackslash(first: string, rest: string)
    requires first != "" && first[0] != '/' && '\\' !in first && '\\' !in rest
    ensures var path := first + ['/'] + rest; path != "" && path[0] != '/' && '\\' !in path
  {
    assert (first + ['/'] + rest)[0] == first[0];
  }

  lemma RustFile(path: string)
    requires !Strange(path) && HasExtension(path, "rs") && "xtask/" <= path
    ensures ChangeOf(path) == RustChange(path)
  {
    assert path[0] == 'x';
  }

  lemma WorkflowFile(path: string)
    requires !Strange(path) && HasExtension(path, "yml") && ".github/workflows/" <= path && |path| == 23
    ensures ChangeOf(path) == Workflow
  {
    assert path[0] == '.';
  }

  lemma ShortRust(path: string)
    requires |path| < 12
    ensures RustChange(path) == Rust
  {
    assert forall file :: file in WINDOWS_FILES + NATIVE_FILES ==> |file| > 12;
  }

  lemma NativeTest(path: string)
    requires "xtask/tests/" <= path
    ensures RustChange(path) == Native
  {
    forall file | file in WINDOWS_FILES ensures path != file {
      assert file[6] == 's' && path[6] == 't';
    }
  }

  lemma WorkflowPath(stem: string) returns (path: string)
    requires PlainPart(stem) && |stem| == 1
    ensures ChangeOf(path) == Workflow
  {
    var file := stem + ['.'] + "yml";
    path := ".github" + ['/'] + ("workflows" + ['/'] + file);
    ThreeParts(path, ".github", "workflows", stem, "yml");
    JoinedDirectories(".github", "workflows", file);
    WorkflowDirectory(file);
    WorkflowFile(path);
  }

  lemma WorkflowDirectory(file: string)
    ensures ".github/workflows/" <= (".github" + ['/'] + "workflows" + ['/']) + file
  {
    assert ".github" + ['/'] + "workflows" + ['/'] == ".github/workflows/";
  }

  lemma JoinedDirectories(first: string, second: string, file: string)
    ensures first + ['/'] + (second + ['/'] + file) == (first + ['/'] + second + ['/']) + file
  {
  }

  lemma RustPath(stem: string) returns (path: string)
    requires PlainPart(stem) && |stem| == 1
    ensures ChangeOf(path) == Rust
  {
    path := "xtask" + ['/'] + (stem + ['.'] + "rs");
    TwoParts(path, "xtask", stem, "rs");
    RustFile(path);
    ShortRust(path);
  }

  lemma NativePath(stem: string) returns (path: string)
    requires PlainPart(stem)
    ensures ChangeOf(path) == Native
  {
    var file := stem + ['.'] + "rs";
    path := "xtask" + ['/'] + ("tests" + ['/'] + file);
    ThreeParts(path, "xtask", "tests", stem, "rs");
    assert path == "xtask/tests/" + file;
    RustFile(path);
    NativeTest(path);
  }

  lemma WindowsPath(stem: string) returns (path: string)
    requires stem == "lib" && PlainPart(stem)
    ensures ChangeOf(path) == Windows
  {
    path := "xtask" + ['/'] + ("src" + ['/'] + (stem + ['.'] + "rs"));
    ThreeParts(path, "xtask", "src", stem, "rs");
    assert path == "xtask/src/lib.rs";
    RustFile(path);
  }

  lemma OtherPath(path: string)
    requires path == ""
    ensures ChangeOf(path) == Everything
  {
    PartsOnly(path);
    assert StrangePart(Parts(path)[0]);
  }
}
