/** Resolution of the bind password from the `--bindpasswd` flag or the
    `--secretfile` path, before any connection is attempted. */
module Password {
  import opened Wrappers

  /** What the file system reports for the secret-file path: not a regular
      file, an error while opening or reading it, or its text as `readline`
      sees it. */
  datatype SecretFile = Missing | ReadError | Contents(text: string)

  /** Python truthiness of an optional string flag: given and non-empty. */
  predicate Given(flag: Option<string>) {
    flag.Some? && flag.value != ""
  }

  /** `readline()`: the text up to and including the first newline, or the
      whole text when it has none. */
  function ReadLine(text: string): (line: string)
    ensures line <= text
    ensures forall i :: 0 <= i < |line| - 1 ==> line[i] != '\n'
    ensures |line| == |text| || (|line| > 0 && line[|line| - 1] == '\n')
  {
    if text == [] then []
    else if text[0] == '\n' then "\n"
    else [text[0]] + ReadLine(text[1..])
  }

  /** `str.replace('\n', '')`: every newline removed, every other character
      kept in order. */
  function DropNewlines(s: string): (r: string)
    ensures '\n' !in r
    ensures |r| <= |s|
    ensures '\n' !in s ==> r == s
  {
    if s == [] then []
    else if s[0] == '\n' then DropNewlines(s[1..])
    else [s[0]] + DropNewlines(s[1..])
  }

  /** Newline removal works piecewise: other characters are kept, in order,
      and the pieces of a string are cleaned independently. */
  lemma {:induction false} DropNewlinesAppend(a: string, b: string)
    ensures DropNewlines(a + b) == DropNewlines(a) + DropNewlines(b)
    decreases |a|
  {
    if a == [] {
      assert a + b == b;
    } else {
      assert (a + b)[0] == a[0];
      assert (a + b)[1..] == a[1..] + b;
      DropNewlinesAppend(a[1..], b);
    }
  }

  /** A single character survives exactly when it is not a newline. */
  lemma DropNewlinesChar(c: char)
    ensures DropNewlines([c]) == if c == '\n' then [] else [c]
  {
  }

  /** The password the secret file yields: its first line without the
      newline. */
  function FirstLine(text: string): (line: string)
    ensures '\n' !in line
  {
    DropNewlines(ReadLine(text))
  }

  /** The bind password: a non-empty literal wins; otherwise a non-empty
      secret-file path is consulted (first line, or "" when the file is
      missing or unreadable); with neither source the password is "". */
  function Resolve(literal: Option<string>, secretPath: Option<string>, secret: SecretFile): (password: string)
    ensures Given(literal) ==> password == literal.value
    ensures !Given(literal) && Given(secretPath) && secret.Contents? ==> password == FirstLine(secret.text)
    ensures !Given(literal) && Given(secretPath) && !secret.Contents? ==> password == ""
    ensures !Given(literal) && !Given(secretPath) ==> password == ""
    ensures !Given(literal) ==> '\n' !in password
  {
    if Given(literal) then literal.value
    else if Given(secretPath) then
      match secret
      case Contents(text) => FirstLine(text)
      case ReadError => ""
      case Missing => ""
    else ""
  }

  /** The first line is the longest newline-free prefix of the file: it is a
      prefix, holds no newline, and stops at the end of the text or right
      before a newline. */
  lemma {:induction false} FirstLineIsLeadingSegment(text: string)
    ensures FirstLine(text) <= text
    ensures '\n' !in FirstLine(text)
    ensures |FirstLine(text)| == |text| || text[|FirstLine(text)|] == '\n'
  {
    if text == [] {
    } else if text[0] == '\n' {
      assert ReadLine(text) == "\n";
      assert DropNewlines("\n") == DropNewlines([]);
    } else {
      FirstLineIsLeadingSegment(text[1..]);
      assert ReadLine(text) == [text[0]] + ReadLine(text[1..]);
      var rest := ReadLine(text[1..]);
      assert ([text[0]] + rest)[1..] == rest;
      assert DropNewlines([text[0]] + rest) == [text[0]] + DropNewlines(rest);
    }
  }

  /** Conversely, any newline-free prefix that stops at the end of the text
      or before a newline is the first line: the password is determined by
      the file's text alone. */
  lemma FirstLineUnique(text: string, p: string)
    requires p <= text
    requires '\n' !in p
    requires |p| == |text| || text[|p|] == '\n'
    ensures p == FirstLine(text)
  {
    var l := FirstLine(text);
    FirstLineIsLeadingSegment(text);
    if |p| < |l| {
      assert false;
    } else if |l| < |p| {
      assert false;
    }
    assert p == text[..|p|] == l;
  }

  /** A non-empty literal password is used as given, whatever the secret
      file path is and whatever that file holds: the file is not consulted. */
  lemma LiteralIgnoresSecretFile(literal: Option<string>, path1: Option<string>, path2: Option<string>,
                                 file1: SecretFile, file2: SecretFile)
    requires Given(literal)
    ensures Resolve(literal, path1, file1) == literal.value
    ensures Resolve(literal, path1, file1) == Resolve(literal, path2, file2)
  {
  }

  /** Without a literal password, the resolved password is empty exactly when
      there is no secret-file path, the file is missing or unreadable, or its
      first line is empty. */
  lemma EmptyPasswordCases(literal: Option<string>, secretPath: Option<string>, secret: SecretFile)
    requires !Given(literal)
    ensures Resolve(literal, secretPath, secret) == "" <==>
              !Given(secretPath) || !secret.Contents? || FirstLine(secret.text) == ""
  {
  }
}
