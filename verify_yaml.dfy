/**
 * Validation of a package descriptor (`ArieoPackage.yaml`): a chain of
 * guards over the file, its text and the value the YAML loader made of it.
 * The first guard that fails names the reason; a descriptor that passes
 * them all is a mapping with a non-empty string `name`, returned as data.
 */
module Descriptor {

  import opened Options
  import opened PyStrings
  import opened Yaml

  /** What the YAML loader made of a file's text. */
  datatype Parse = Parsed(value: Value) | SyntaxError(message: string)

  /** A descriptor file on disk: missing, failing to read, or read together with its parse. */
  datatype DescriptorFile =
    | Absent
    | Unreadable(message: string)
    | Present(content: string, parse: Parse)

  /** Why a descriptor is rejected, one reason per guard. */
  datatype Reason =
    | FileDoesNotExist
    | ReadError(message: string)
    | EmptyFile
    | YamlSyntaxError(message: string)
    | EmptyOrOnlyComments
    | RootNotDictionary(typeName: string)
    | MissingName
    | NameNotNonEmptyString

  /** The `(is_valid, parsed_data, error_message)` triple. */
  datatype Verdict = Verdict(isValid: bool, data: Option<map<string, Value>>, error: Option<Reason>)

  function Invalid(reason: Reason): Verdict {
    Verdict(false, None, Some(reason))
  }

  /** `not v or not isinstance(v, str)` is false: `v` is a string with at least one character. */
  predicate IsNonEmptyString(v: Value) {
    !Falsy(v) && v.Str?
  }

  /** `verify_yaml`: the guards in the order the source runs them. */
  function VerifyYaml(f: DescriptorFile): (r: Verdict)
    ensures r.isValid <==> r.data.Some?
    ensures r.isValid <==> r.error.None?
    ensures r.isValid ==> f.Present? && f.parse == Parsed(Map(r.data.value))
    ensures r.isValid ==> "name" in r.data.value && IsNonEmptyString(r.data.value["name"])
  {
    match f
    case Absent => Invalid(FileDoesNotExist)
    case Unreadable(message) => Invalid(ReadError(message))
    case Present(content, parse) =>
      if IsBlank(content) then Invalid(EmptyFile)
      else match parse
        case SyntaxError(message) => Invalid(YamlSyntaxError(message))
        case Parsed(data) =>
          if data == Null then Invalid(EmptyOrOnlyComments)
          else if !data.Map? then Invalid(RootNotDictionary(TypeName(data)))
          else if "name" !in data.entries then Invalid(MissingName)
          else if !IsNonEmptyString(data.entries["name"]) then Invalid(NameNotNonEmptyString)
          else Verdict(true, Some(data.entries), None)
  }

  // ---------------------------------------------------------------------
  // Reference specification: the guards as a list, each stated on its own.
  // ---------------------------------------------------------------------

  datatype Guard =
    | Exists | Readable | NotBlank | WellFormedYaml | NotNull | RootIsDict | HasName | NameIsNonEmptyString

  /** The order in which the guards are applied. */
  const Guards: seq<Guard> :=
    [Exists, Readable, NotBlank, WellFormedYaml, NotNull, RootIsDict, HasName, NameIsNonEmptyString]

  /** The loaded document, when the file was read and loaded without a syntax error. */
  function Root(f: DescriptorFile): Option<Value> {
    if f.Present? && f.parse.Parsed? then Some(f.parse.value) else None
  }

  /** Guard `g` accepts file `f`. */
  predicate Holds(g: Guard, f: DescriptorFile) {
    match g
    case Exists => !f.Absent?
    case Readable => f.Present?
    case NotBlank => f.Present? && !IsBlank(f.content)
    case WellFormedYaml => Root(f).Some?
    case NotNull => Root(f).Some? && Root(f).value != Null
    case RootIsDict => Root(f).Some? && Root(f).value.Map?
    case HasName => Root(f).Some? && Root(f).value.Map? && "name" in Root(f).value.entries
    case NameIsNonEmptyString =>
      Root(f).Some? && Root(f).value.Map? && "name" in Root(f).value.entries
      && IsNonEmptyString(Root(f).value.entries["name"])
  }

  /** The reason reported when `g` is the guard that rejects `f`. */
  function Rejection(g: Guard, f: DescriptorFile): Reason {
    match g
    case Exists => FileDoesNotExist
    case Readable => ReadError(if f.Unreadable? then f.message else "")
    case NotBlank => EmptyFile
    case WellFormedYaml => YamlSyntaxError(if f.Present? && f.parse.SyntaxError? then f.parse.message else "")
    case NotNull => EmptyOrOnlyComments
    case RootIsDict => RootNotDictionary(if Root(f).Some? then TypeName(Root(f).value) else "")
    case HasName => MissingName
    case NameIsNonEmptyString => NameNotNonEmptyString
  }

  /** The index of the first guard, from `from` on, that rejects `f`; `|Guards|` when none does. */
  function FirstFailing(f: DescriptorFile, from: nat): (k: nat)
    requires from <= |Guards|
    ensures from <= k <= |Guards|
    ensures forall j :: from <= j < k ==> Holds(Guards[j], f)
    ensures k < |Guards| ==> !Holds(Guards[k], f)
    decreases |Guards| - from
  {
    if from == |Guards| || !Holds(Guards[from], f) then from else FirstFailing(f, from + 1)
  }

  /** The first failing guard is pinned down by the guards before it holding and its own failing. */
  lemma {:induction false} FirstFailingIs(f: DescriptorFile, from: nat, k: nat)
    requires from <= k <= |Guards|
    requires forall j :: from <= j < k ==> Holds(Guards[j], f)
    requires k < |Guards| ==> !Holds(Guards[k], f)
    ensures FirstFailing(f, from) == k
    decreases k - from
  {
    if from < k {
      FirstFailingIs(f, from + 1, k);
    }
  }

  /**
   * `verify_yaml` accepts exactly when every guard holds, and otherwise
   * reports the reason of the first guard that fails.
   */
  lemma VerifyYamlRejectsAtFirstFailingGuard(f: DescriptorFile)
    ensures var k := FirstFailing(f, 0);
      && (VerifyYaml(f).isValid <==> k == |Guards|)
      && (k < |Guards| ==> VerifyYaml(f).error == Some(Rejection(Guards[k], f)))
  {
    var k: nat;
    if f.Absent? {
      k := 0;
    } else if f.Unreadable? {
      k := 1;
    } else if IsBlank(f.content) {
      k := 2;
    } else if f.parse.SyntaxError? {
      k := 3;
    } else if f.parse.value == Null {
      k := 4;
    } else if !f.parse.value.Map? {
      k := 5;
    } else if "name" !in f.parse.value.entries {
      k := 6;
    } else if !IsNonEmptyString(f.parse.value.entries["name"]) {
      k := 7;
    } else {
      k := 8;
    }
    FirstFailingIs(f, 0, k);
  }

  /** A YAML loader never makes a mapping out of whitespace alone. */
  predicate LoaderConsistent(f: DescriptorFile) {
    f.Present? && IsBlank(f.content) ==> !(f.parse.Parsed? && f.parse.value.Map?)
  }

  /** A descriptor is valid exactly when it loads as a mapping whose `name` is a non-empty string. */
  lemma ValidExactlyWhenNamedMapping(f: DescriptorFile)
    requires LoaderConsistent(f)
    ensures VerifyYaml(f).isValid <==>
      && Root(f).Some? && Root(f).value.Map?
      && "name" in Root(f).value.entries && IsNonEmptyString(Root(f).value.entries["name"])
  {
  }

  /** Four descriptors: a comment alone, a mapping without `name`, `name: 123` and `name: ""`. */
  lemma VerifyYamlOnSampleDescriptors()
    ensures VerifyYaml(Present("# nothing here\n", Parsed(Null))).error == Some(EmptyOrOnlyComments)
    ensures VerifyYaml(Present("version: 1\n", Parsed(Map(map["version" := Int(1)])))).error == Some(MissingName)
    ensures VerifyYaml(Present("name: 123\n", Parsed(Map(map["name" := Int(123)])))).error == Some(NameNotNonEmptyString)
    ensures VerifyYaml(Present("name: \"\"\n", Parsed(Map(map["name" := Str("")])))).error == Some(NameNotNonEmptyString)
  {
    var comment, unnamed, numbered, emptied := "# nothing here\n", "version: 1\n", "name: 123\n", "name: \"\"\n";
    assert comment[0] == '#' && !IsBlank(comment);
    assert unnamed[0] == 'v' && !IsBlank(unnamed);
    assert numbered[0] == 'n' && !IsBlank(numbered);
    assert emptied[0] == 'n' && !IsBlank(emptied);
  }

}
