/** Which lines of reference.config the loader skips. */
module LineClassifier {
  import opened CType

  /** A line is skipped when it is blank, or when its first non-blank
      character is '#'. */
  ghost predicate BlankOrComment(line: string) {
    (forall i :: 0 <= i < |line| ==> IsSpace(line[i]))
    || (exists k :: 0 <= k < |line| && line[k] == '#' && forall i :: 0 <= i < k ==> IsSpace(line[i]))
  }

  /** Walks the line until a '#' (comment) or a non-blank (directive), and
      treats a line that runs out first as blank. */
  method IsLineBlankOrComment(line: string) returns (skip: bool)
    ensures skip <==> BlankOrComment(line)
  {
    var i := 0;
    while i < |line|
      invariant 0 <= i <= |line|
      invariant forall j :: 0 <= j < i ==> IsSpace(line[j])
    {
      if line[i] == '#' {
        return true;
      }
      if !IsSpace(line[i]) {
        return false;
      }
      i := i + 1;
    }
    return true;
  }

  /** A line that starts with neither a blank nor '#' is never skipped. */
  lemma {:induction false} NotSkipped(line: string)
    requires line != [] && !IsSpace(line[0]) && line[0] != '#'
    ensures !BlankOrComment(line)
  {
  }
}
