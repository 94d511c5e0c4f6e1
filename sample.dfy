/** The sample file of `create_sample_file` (file_handler.py) and the name the
    menu gives it. */
module Sample {
  import opened Text
  import opened Lines

  /** The four lines written, in order, each with its newline. */
  const SampleLines: seq<string> := [
    "Hello World\n",
    "Python is amazing\n",
    "File handling is fun\n",
    "Exception handling is important\n"
  ]

  /** The content of a freshly written sample file. */
  function SampleContent(): string {
    Concat(SampleLines)
  }

  /** Choice 2 of the menu: the typed name, stripped, or `sample.txt` when
      it is blank. */
  function SampleName(typed: string): (name: string)
    ensures name != []
    ensures AllSpace(typed) ==> name == "sample.txt"
    ensures !AllSpace(typed) ==> name == Strip(typed)
  {
    var name := Strip(typed);
    if name == [] then "sample.txt" else name
  }

  /** Reading the sample file gives back exactly its four lines. */
  lemma SampleReadsBack()
    ensures SplitLines(SampleContent()) == SampleLines
    ensures |SplitLines(SampleContent())| == 4
  {
    SplitLinesConcat(SampleLines);
  }
}
