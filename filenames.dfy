/** The file names that the menu of `main` (file_handler.py) works out before
    calling the transformer: typed names are stripped, a blank input name is
    refused, and a blank output name is derived from the input name. */
module FileNames {
  import opened Wrappers
  import opened Text

  /** Position of the last occurrence of `c` in `s`, or -1 when there is none. */
  function LastIndexOf(s: string, c: char): (r: int)
    ensures -1 <= r < |s|
    ensures r >= 0 ==> s[r] == c && forall j :: r < j < |s| ==> s[j] != c
    ensures r < 0 ==> forall j :: 0 <= j < |s| ==> s[j] != c
    decreases |s|
  {
    if s == [] then -1
    else if s[|s| - 1] == c then |s| - 1
    else LastIndexOf(s[..|s| - 1], c)
  }

  /** The suggested output name: `name.ext` split at the last dot (as
      `rsplit('.', 1)` does) becomes `name_modified.ext`, and a name without a
      dot gets `_modified.txt` appended. */
  function DefaultOutputName(input: string): string {
    var dot := LastIndexOf(input, '.');
    if dot < 0 then input + "_modified.txt"
    else input[..dot] + "_modified." + input[dot + 1..]
  }

  /** A dotted name is split at its last dot: whatever precedes it, dots
      included, is kept, and so is the extension. */
  lemma {:induction false} DefaultNameSplitsAtLastDot(name: string, ext: string)
    requires '.' !in ext
    ensures DefaultOutputName(name + "." + ext) == name + "_modified." + ext
  {
    var input := name + "." + ext;
    LastIndexOfLast(name, ext);
    assert input[..|name|] == name;
    assert input[|name| + 1..] == ext;
  }

  lemma {:induction false} LastIndexOfLast(name: string, ext: string)
    requires '.' !in ext
    ensures LastIndexOf(name + "." + ext, '.') == |name|
    decreases |ext|
  {
    var s := name + "." + ext;
    if ext == [] {
      assert s[|s| - 1] == '.';
    } else {
      assert s[|s| - 1] == ext[|ext| - 1];
      assert s[..|s| - 1] == name + "." + ext[..|ext| - 1];
      LastIndexOfLast(name, ext[..|ext| - 1]);
    }
  }

  /** A name without a dot gets the `.txt` extension. */
  lemma DefaultNameWithoutDot(input: string)
    requires '.' !in input
    ensures DefaultOutputName(input) == input + "_modified.txt"
  {
  }

  /** The suggested name is always longer than the input name, so the input
      file is never chosen as its own output. */
  lemma DefaultNameDiffers(input: string)
    ensures |DefaultOutputName(input)| > |input|
    ensures DefaultOutputName(input) != input
  {
  }

  /** The input name a dotted suggested name was derived from. */
  function RecoverInput(output: string): Option<string> {
    var dot := LastIndexOf(output, '.');
    if dot < 9 || output[dot - 9..dot] != "_modified" then None
    else Some(output[..dot - 9] + "." + output[dot + 1..])
  }

  /** For a dotted input name the suggestion loses nothing: the input name
      can be recovered from it, so two dotted names never share a suggestion. */
  lemma RecoverDefaultName(input: string)
    requires '.' in input
    ensures RecoverInput(DefaultOutputName(input)) == Some(input)
  {
    var dot := LastIndexOf(input, '.');
    var name, ext := input[..dot], input[dot + 1..];
    assert '.' !in ext;
    assert input == name + "." + ext;
    var output := name + "_modified" + "." + ext;
    assert DefaultOutputName(input) == output;
    LastIndexOfLast(name + "_modified", ext);
    var d := |name| + 9;
    assert output[d - 9..d] == "_modified";
    assert output[..d - 9] == name;
    assert output[d + 1..] == ext;
  }

  /** A name without a dot and the same name with `.txt` appended get the same
      suggestion (`README` and `README.txt` both give `README_modified.txt`). */
  lemma DefaultNameCollision(input: string)
    requires '.' !in input
    ensures DefaultOutputName(input) == DefaultOutputName(input + ".txt")
  {
    var ext := "txt";
    assert '.' !in ext;
    assert input + "." + ext == input + ".txt";
    DefaultNameSplitsAtLastDot(input, ext);
    DefaultNameWithoutDot(input);
    assert "_modified." + ext == "_modified.txt";
    assert input + "_modified." + ext == input + ("_modified." + ext);
  }

  /** `notes.txt` becomes `notes_modified.txt`. */
  lemma NotesExample()
    ensures DefaultOutputName("notes.txt") == "notes_modified.txt"
  {
    var name, ext := "notes", "txt";
    assert name + "." + ext == "notes.txt";
    DefaultNameSplitsAtLastDot(name, ext);
    assert name + "_modified." + ext == "notes_modified.txt";
  }

  /** Only the last dot separates the extension: `a.b.txt` becomes
      `a.b_modified.txt`. */
  lemma DottedExample()
    ensures DefaultOutputName("a.b.txt") == "a.b_modified.txt"
  {
    var name, ext := "a.b", "txt";
    assert name + "." + ext == "a.b.txt";
    DefaultNameSplitsAtLastDot(name, ext);
    assert name + "_modified." + ext == "a.b_modified.txt";
  }

  /** `README` becomes `README_modified.txt`. */
  lemma ReadmeExample()
    ensures DefaultOutputName("README") == "README_modified.txt"
  {
    assert '.' !in "README";
    DefaultNameWithoutDot("README");
  }

  /** The names the menu hands to the transformer, or the refusal of a blank
      input name. */
  datatype NameChoice = Names(input: string, output: string) | BlankInput

  /** Choice 1 of the menu: both typed names are stripped; a blank input name
      is refused before the output name is considered; a blank output name is
      replaced by the suggestion. */
  function ResolveNames(typedInput: string, typedOutput: string): (r: NameChoice)
    ensures r.BlankInput? <==> AllSpace(typedInput)
    ensures r.Names? ==> r.input == Strip(typedInput) && r.input != [] && r.output != []
    ensures r.Names? && !AllSpace(typedOutput) ==> r.output == Strip(typedOutput)
    ensures r.Names? && AllSpace(typedOutput) ==> r.output == DefaultOutputName(r.input)
  {
    var input := Strip(typedInput);
    if input == [] then BlankInput
    else
      var output := Strip(typedOutput);
      Names(input, if output == [] then DefaultOutputName(input) else output)
  }
}
