/** Output naming of the popup: stripping the last extension from a file name
    and appending the target format (popup.js, `getFileNameWithoutExtension`
    and the name built for every converted file). */
module FileNames {

  const Dot: char := '.'

  /** `s.lastIndexOf(c)` for a one-character search string: the largest index
      holding `c`, or -1 when `c` does not occur in `s`. */
  function LastIndexOf(s: string, c: char): (r: int)
    ensures -1 <= r < |s|
    ensures r == -1 <==> c !in s
    ensures 0 <= r ==> s[r] == c
    ensures forall j :: r < j < |s| ==> s[j] != c
  {
    if |s| == 0 then -1
    else if s[|s| - 1] == c then |s| - 1
    else LastIndexOf(s[..|s| - 1], c)
  }

  /** True when the only dot of `name` is its first character, as in ".hidden". */
  predicate DotOnlyAtStart(name: string) {
    |name| > 0 && name[0] == Dot && Dot !in name[1..]
  }

  /** `getFileNameWithoutExtension`: the name without its last extension. */
  function BaseName(name: string): (r: string) {
    var i := LastIndexOf(name, Dot);
    if i == -1 || i == 0 then name else name[..i]
  }

  /** What `BaseName` computes: a prefix of the name, equal to the name
      exactly when the name has no dot or its only dot is the first
      character; otherwise the non-empty part before the last dot, so that
      the name is the result, a dot, and an extension holding no dot. */
  lemma BaseNameSpec(name: string)
    ensures BaseName(name) <= name
    ensures BaseName(name) == name <==> Dot !in name || DotOnlyAtStart(name)
    ensures BaseName(name) != name ==>
              && 0 < |BaseName(name)| < |name|
              && name[|BaseName(name)|] == Dot
              && Dot !in name[|BaseName(name)| + 1..]
              && name == BaseName(name) + [Dot] + name[|BaseName(name)| + 1..]
  {
  }

  /** The name given to a converted file: `<base>.<format>`. */
  function OutputName(name: string, format: string): (r: string) {
    BaseName(name) + [Dot] + format
  }

  /** Joining a non-empty base and a dot-free extension with a dot and then
      stripping the extension gives the base back. */
  lemma {:induction false} BaseNameOfJoin(base: string, ext: string)
    requires base != []
    requires Dot !in ext
    ensures BaseName(base + [Dot] + ext) == base
  {
    var name := base + [Dot] + ext;
    var r := BaseName(name);
    BaseNameSpec(name);
    assert name[|base|] == Dot;
    assert name[1..][|base| - 1] == Dot;
    assert Dot in name && !DotOnlyAtStart(name);
    assert r != name;
    assert r == name[..|base|] == base;
  }

  /** Stripping the extension from an output name recovers the base the name
      was built from, whenever the format contains no dot. */
  lemma {:induction false} OutputNameRoundTrip(name: string, format: string)
    requires name != []
    requires Dot !in format
    ensures BaseName(OutputName(name, format)) == BaseName(name)
  {
    BaseNameSpec(name);
    assert BaseName(name) != [];
    BaseNameOfJoin(BaseName(name), format);
  }

  /** The behaviour on sample names: an extension is
      stripped, and only the last one. */
  lemma BaseNameStripsExamples()
    ensures BaseName("photo.png") == "photo"
    ensures BaseName("a.b.c") == "a.b"
  {
    BaseNameOfJoin("photo", "png");
    assert "photo" + [Dot] + "png" == "photo.png";
    BaseNameOfJoin("a.b", "c");
    assert "a.b" + [Dot] + "c" == "a.b.c";
  }

  /** The behaviour on sample names: a name with no dot, or
      with one leading dot, is kept whole. */
  lemma BaseNameKeepsExamples()
    ensures BaseName("noext") == "noext"
    ensures BaseName(".hidden") == ".hidden"
  {
    var noext := "noext";
    assert forall i :: 0 <= i < |noext| ==> noext[i] != Dot;
    var hidden := ".hidden";
    assert forall i :: 0 <= i < |hidden[1..]| ==> hidden[1..][i] != Dot;
    assert DotOnlyAtStart(hidden);
    BaseNameSpec(noext);
    BaseNameSpec(hidden);
  }
}
