/** Types and list helpers shared by every component of the model. */
module Common {

  datatype Option<+T> = None | Some(value: T)

  /** The outcome of an operation that the service may refuse with an exception. */
  datatype Result<+T, +E> = Ok(value: T) | Err(error: E)

  /** The characters `trim` and a regular expression's `\s` take as white space. */
  predicate IsSpace(c: char) {
    var n := c as int;
    9 <= n <= 13 || n == 32 || n == 160 || n == 5760 || 8192 <= n <= 8202 || n == 8232 || n == 8233 || n == 8239
    || n == 8287 || n == 12288 || n == 65279
  }

  /** The white space and line terminators of ECMA-262, sections 12.2 and 12.3, by their code units. */
  lemma BlanksExactly(c: char)
    ensures IsSpace(c) <==>
            c as int in [0x9, 0xA, 0xB, 0xC, 0xD, 0x20, 0xA0, 0x1680, 0x2000, 0x2001, 0x2002, 0x2003, 0x2004, 0x2005,
                         0x2006, 0x2007, 0x2008, 0x2009, 0x200A, 0x2028, 0x2029, 0x202F, 0x205F, 0x3000, 0xFEFF]
  {
  }

  const LOWER_HEX := "0123456789abcdef"

  lemma LowerHexExactly(c: char)
    ensures '0' <= c <= '9' || 'a' <= c <= 'f' <==> c in LOWER_HEX
  {
    if '0' <= c <= '9' {
      assert LOWER_HEX[c as int - '0' as int] == c;
    } else if 'a' <= c <= 'f' {
      assert LOWER_HEX[10 + c as int - 'a' as int] == c;
    }
  }

  function Min(a: int, b: int): int {
    if a <= b then a else b
  }

  /** Adding to an insertion-ordered set. */
  function AddNew<T(==)>(out: seq<T>, x: T): seq<T> {
    if x in out then out else out + [x]
  }

  /** The elements of a list in order of first appearance: `[...new Set(list)]`. */
  function Distinct<T(==,!new)>(list: seq<T>): (out: seq<T>)
    ensures forall x :: x in out <==> x in list
    ensures NoDuplicates(out)
  {
    if list == [] then [] else AddNew(Distinct(list[..|list| - 1]), list[|list| - 1])
  }

  ghost predicate NoDuplicates<T>(list: seq<T>) {
    forall i, j | 0 <= i < j < |list| :: list[i] != list[j]
  }
}
