/**
 * The two input predicates of the mail sender: `validate_email`, the loose
 * address check applied to every recipient before a message is built, and
 * `allowed_file`, the attachment-name check (only PDF files are accepted).
 */
module Validation {
  import opened Strings

  /** `ALLOWED_EXTENSIONS`: the only extension accepted for the attachment. */
  const AllowedExtensions: set<string> := {"pdf"}

  /** `allowed_file`: the name has a dot and its last extension, lower-cased, is allowed. */
  predicate AllowedFile(filename: string)
  {
    '.' in filename && Lower(RSplitOnce(filename, '.').1) in AllowedExtensions
  }

  /** `validate_email`: there is an '@', and the second '@'-separated part contains a dot. */
  predicate ValidateEmail(email: string)
  {
    '@' in email && '.' in Split(email, '@')[1]
  }

  /** An '@' at `i` that is the first one, and a dot at `j` after it with no
      '@' in between: the shape `validate_email` looks for. */
  ghost predicate AtThenDot(email: string, i: int, j: int)
  {
    0 <= i < j < |email| && email[i] == '@' && '@' !in email[..i] &&
    email[j] == '.' && '@' !in email[i + 1..j]
  }

  /**
   * `validate_email` accepts exactly the strings where some dot follows the
   * first '@' before any second '@'. Nothing else is checked: no length bound,
   * no character classes, no requirement on what precedes the '@'.
   */
  lemma ValidateEmailIff(email: string)
    ensures ValidateEmail(email) <==> exists i, j :: AtThenDot(email, i, j)
  {
    if ValidateEmail(email) {
      var i, j := ValidEmailHasDot(email);
    }
    forall i, j | AtThenDot(email, i, j) ensures ValidateEmail(email) {
      DotAfterFirstAt(email, i, j);
    }
  }

  /** The part `validate_email` inspects is the text after the first '@', up to the next one. */
  lemma SecondPart(email: string)
    requires '@' in email
    ensures Split(email, '@')[1] ==
      email[FirstIndex(email, '@') + 1..][..FirstIndex(email[FirstIndex(email, '@') + 1..], '@')]
  {
    SplitAtFirst(email, '@');
    SplitAtFirst(email[FirstIndex(email, '@') + 1..], '@');
  }

  lemma ValidEmailHasDot(email: string) returns (i: nat, j: int)
    requires ValidateEmail(email)
    ensures i == FirstIndex(email, '@')
    ensures AtThenDot(email, i, j)
  {
    i := FirstIndex(email, '@');
    var t := email[i + 1..];
    var seg := Split(email, '@')[1];
    assert seg == t[..FirstIndex(t, '@')] by { SecondPart(email); }
    var j' :| 0 <= j' < |seg| && seg[j'] == '.';
    j := i + 1 + j';
    assert t[j'] == '.';
    DotInSegment(email, i, t, FirstIndex(t, '@'), j');
  }

  /** A dot at offset `j'` of the text between the first and the next '@'. */
  lemma DotInSegment(email: string, i: nat, t: string, n: nat, j': nat)
    requires i < |email| && email[i] == '@' && '@' !in email[..i]
    requires t == email[i + 1..] && n <= |t| && '@' !in t[..n]
    requires j' < n && t[j'] == '.'
    ensures AtThenDot(email, i, i + 1 + j')
  {
    assert email[i + 1..i + 1 + j'] == t[..n][..j'];
  }

  lemma DotAfterFirstAt(email: string, i: int, j: int)
    requires AtThenDot(email, i, j)
    ensures ValidateEmail(email)
  {
    var f := FirstIndex(email, '@');
    assert i == f;
    var t := email[i + 1..];
    var n := FirstIndex(t, '@');
    var j' := j - i - 1;
    assert t[..j'] == email[i + 1..j];
    assert j' < n;
    SecondPart(email);
    assert Split(email, '@')[1][j'] == '.';
  }

  /** A well-formed address passes the check. */
  lemma ValidateEmailAccepts()
    ensures ValidateEmail("a@b.com")
  {
    DotAfterFirstAt("a@b.com", 1, 3);
  }

  /** Without an '@' an address is rejected. */
  lemma ValidateEmailRejectsNoAt()
    ensures !ValidateEmail("")
    ensures !ValidateEmail("no-at-sign")
  {
  }

  /** Without a dot after the '@' an address is rejected; a dot before it does not count. */
  lemma ValidateEmailRejectsNoDot()
    ensures !ValidateEmail("a@b")
    ensures !ValidateEmail("a.b@c")
  {
    assert "b"[1..] == "" && "c"[1..] == "" && Split("", '@') == [""];
    assert ['b'] + "" == "b" && ['c'] + "" == "c" && [""][1..] == [];
    assert Split("b", '@') == ["b"];
    assert Split("@b", '@') == ["", "b"];
    assert Split("c", '@') == ["c"];
    assert Split("@c", '@') == ["", "c"];
  }

  /** Only the text up to a second '@' is inspected, so a dot after it does not count. */
  lemma ValidateEmailRejectsSecondAt()
    ensures !ValidateEmail("a@b@c.com")
  {
    assert Split("b@c.com", '@')[0] == "b";
    assert Split("@b@c.com", '@')[1] == "b";
  }

  /**
   * `allowed_file` accepts exactly the names that end in a dot followed by
   * "pdf" in any mixture of upper and lower case.
   */
  lemma AllowedFileIff(filename: string)
    ensures AllowedFile(filename) <==>
      |filename| >= 4 && filename[|filename| - 4] == '.' &&
      filename[|filename| - 3] in "pP" && filename[|filename| - 2] in "dD" &&
      filename[|filename| - 1] in "fF"
  {
    if '.' in filename {
      var (head, ext) := RSplitOnce(filename, '.');
      LowerIsPdf(ext);
      assert "pP" == ['p', 'P'] && "dD" == ['d', 'D'] && "fF" == ['f', 'F'];
      ExtensionSuffix(filename, head, ext);
    } else if |filename| >= 4 {
      assert filename[|filename| - 4] != '.';
    }
  }

  /** Lower-casing gives "pdf" exactly for the eight spellings of p, d, f. */
  lemma LowerIsPdf(ext: string)
    ensures Lower(ext) == "pdf" <==>
      |ext| == 3 && ext[0] in "pP" && ext[1] in "dD" && ext[2] in "fF"
  {
    if |ext| == 3 {
      var low := Lower(ext);
      LowerCharTo(ext[0], 'p', 'P');
      LowerCharTo(ext[1], 'd', 'D');
      LowerCharTo(ext[2], 'f', 'F');
      assert low == "pdf" <==> low[0] == 'p' && low[1] == 'd' && low[2] == 'f';
    }
  }

  /** Only a lower-case letter and its upper-case form lower to that letter. */
  lemma LowerCharTo(ch: char, lower: char, upper: char)
    requires 'a' <= lower <= 'z' && upper as int == lower as int - 32
    ensures LowerChar(ch) == lower <==> ch in [lower, upper]
  {
  }

  /** When `ext` follows the last dot, the name ends in a dot and three
      characters exactly when `ext` is those three characters. */
  lemma ExtensionSuffix(filename: string, head: string, ext: string)
    requires filename == head + ['.'] + ext && '.' !in ext
    ensures (|filename| >= 4 && filename[|filename| - 4] == '.' &&
             filename[|filename| - 3] in "pP" && filename[|filename| - 2] in "dD" &&
             filename[|filename| - 1] in "fF") <==>
            (|ext| == 3 && ext[0] in "pP" && ext[1] in "dD" && ext[2] in "fF")
  {
    var n := |filename|;
    assert forall k :: 0 <= k < |ext| ==> filename[|head| + 1 + k] == ext[k];
    assert filename[|head|] == '.';
    if n >= 4 && filename[n - 4] == '.' && filename[n - 3] in "pP" &&
       filename[n - 2] in "dD" && filename[n - 1] in "fF" {
      assert |ext| == 3;
    }
  }

  /** A few names of the kind the upload form sees. */
  lemma AllowedFileExamples()
    ensures AllowedFile("cv.pdf")
    ensures AllowedFile("cv.PDF")
    ensures AllowedFile(".pdf")
    ensures !AllowedFile("cv.pdf.exe")
    ensures !AllowedFile("pdf")
  {
    AllowedFileIff("cv.pdf");
    AllowedFileIff("cv.PDF");
    AllowedFileIff(".pdf");
    AllowedFileIff("cv.pdf.exe");
    AllowedFileIff("pdf");
  }
}
