/** The text cursor both passes and the parameter-name splitter move over their input. */
module Carets {
  import opened Lexing

  class Caret {
    const data: string
    var pos: nat
    var hasError: bool

    constructor (text: string)
      ensures data == text && pos == 0 && !hasError
    {
      data := text;
      pos := 0;
      hasError := false;
    }

    ghost predicate Valid()
      reads this
    {
      pos <= |data|
    }

    predicate CanContinue()
      reads this
    {
      pos < |data| && !hasError
    }

    method Inc(n: nat)
      requires Valid() && pos + n <= |data|
      modifies this`pos
      ensures Valid() && pos == old(pos) + n
    {
      pos := pos + n;
    }

    // Moves to the next `c`, or to the end of the text when there is none.
    method FindChar(c: char) returns (found: bool)
      requires Valid()
      modifies this`pos
      ensures Valid() && pos == FindFrom(data, old(pos), c)
      ensures found == (pos < |data|)
    {
      while pos < |data|
        invariant Valid() && FindFrom(data, pos, c) == FindFrom(data, old(pos), c)
      {
        if data[pos] == c {
          return true;
        }
        pos := pos + 1;
      }
      return false;
    }

    // Skips `text` when the caret stands on it.
    method IsAtText(text: string) returns (skipped: bool)
      requires Valid()
      modifies this`pos
      ensures Valid() && skipped == TextAt(data, old(pos), text)
      ensures pos == if skipped then old(pos) + |text| else old(pos)
    {
      skipped := |text| <= |data| - pos && data[pos..pos + |text|] == text;
      if skipped {
        pos := pos + |text|;
      }
    }

    // Skips `c` when the caret can continue and stands on it.
    method CanContinueAtChar(c: char) returns (skipped: bool)
      requires Valid()
      modifies this`pos
      ensures Valid() && skipped == old(CanContinue() && data[pos] == c)
      ensures pos == if skipped then old(pos) + 1 else old(pos)
    {
      skipped := CanContinue() && data[pos] == c;
      if skipped {
        pos := pos + 1;
      }
    }

    method SetError()
      modifies this`hasError
      ensures hasError
    {
      hasError := true;
    }
  }
}
