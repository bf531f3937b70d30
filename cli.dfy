/**
 * The input assembly of `main`: the `-u` name first, as given, then every line of
 * the `-f` file stripped of surrounding whitespace, blank lines dropped. Argument
 * errors and an empty list end the program with an exit status instead.
 */
module Cli {
  import opened Wrappers
  import opened Records

  /** Python's `str.isspace` on one character: the Unicode white space characters
      and the four information separators U+001C..U+001F. No letter, digit or
      underscore is white space, so stripping never eats a username character. */
  predicate IsSpace(c: char)
    ensures IsSpace(c) ==> !('a' <= c <= 'z' || 'A' <= c <= 'Z' || '0' <= c <= '9' || c == '_')
  {
    c == ' ' || '\t' <= c <= '\r' || '\U{1C}' <= c <= '\U{1F}' || c == '\U{85}' || c == '\U{A0}' ||
    c == '\U{1680}' || '\U{2000}' <= c <= '\U{200A}' || c == '\U{2028}' || c == '\U{2029}' ||
    c == '\U{202F}' || c == '\U{205F}' || c == '\U{3000}'
  }

  /** The number of white space characters `s` starts with. */
  function Lead(s: string): (n: nat)
    ensures n <= |s|
    ensures forall k :: 0 <= k < n ==> IsSpace(s[k])
    ensures n < |s| ==> !IsSpace(s[n])
  {
    if s == [] || !IsSpace(s[0]) then 0 else 1 + Lead(s[1..])
  }

  /** The number of white space characters `s` ends with. */
  function Trail(s: string): (n: nat)
    ensures n <= |s|
    ensures forall k :: |s| - n <= k < |s| ==> IsSpace(s[k])
    ensures n < |s| ==> !IsSpace(s[|s| - 1 - n])
  {
    if s == [] || !IsSpace(s[|s| - 1]) then 0 else 1 + Trail(s[..|s| - 1])
  }

  /** `str.strip()`: `s` without its leading and its trailing white space; what
      is kept is the part of `s` right after its leading white space. */
  function Strip(s: string): (r: string)
    ensures Lead(s) + |r| <= |s| && r == s[Lead(s)..Lead(s) + |r|]
  {
    var t := s[Lead(s)..];
    t[..|t| - Trail(t)]
  }

  /** Only white space follows the stripped part in `s`. */
  lemma StripRest(s: string)
    ensures forall k :: Lead(s) + |Strip(s)| <= k < |s| ==> IsSpace(s[k])
  {
    var i := Lead(s);
    var t := s[i..];
    forall k | i + |Strip(s)| <= k < |s| ensures IsSpace(s[k]) {
      assert s[k] == t[k - i];
    }
  }

  /** `Strip` yields the empty string exactly when `s` is all white space, and
      otherwise a string that starts and ends with a character that is not. */
  lemma StripEnds(s: string)
    ensures var r := Strip(s);
      (r == [] <==> forall k :: 0 <= k < |s| ==> IsSpace(s[k])) &&
      (r != [] ==> !IsSpace(r[0]) && !IsSpace(r[|r| - 1]))
  {
    var i := Lead(s);
    var t := s[i..];
    if i < |s| {
      assert t[0] == s[i];
      assert Trail(t) < |t|;
      assert Strip(s)[|Strip(s)| - 1] == t[|t| - 1 - Trail(t)];
    } else {
      assert t == [];
    }
  }

  /** Stripping twice is stripping once. */
  lemma StripIdempotent(s: string)
    ensures Strip(Strip(s)) == Strip(s)
  {
    var r := Strip(s);
    StripEnds(s);
    if r != [] {
      assert Lead(r) == 0;
      assert Trail(r) == 0;
    }
  }

  /** `[line.strip() for line in f if line.strip()]`: the stripped lines that are
      not empty, in file order. */
  function NonBlankStripped(lines: seq<string>): (r: seq<string>)
    ensures |r| <= |lines|
    ensures forall k :: 0 <= k < |r| ==> r[k] != "" && Strip(r[k]) == r[k]
    decreases |lines|
  {
    if lines == [] then []
    else
      var s := Strip(lines[0]);
      var rest := NonBlankStripped(lines[1..]);
      StripIdempotent(lines[0]);
      if s == "" then rest else [s] + rest
  }

  /** The names of two consecutive runs of lines are those of the first run
      followed by those of the second: file order and repetitions are kept. */
  lemma {:induction false} NonBlankAppend(a: seq<string>, b: seq<string>)
    ensures NonBlankStripped(a + b) == NonBlankStripped(a) + NonBlankStripped(b)
    decreases |a|
  {
    if a == [] {
      assert a + b == b;
    } else {
      assert (a + b)[1..] == a[1..] + b;
      NonBlankAppend(a[1..], b);
    }
  }

  /** One line gives its stripped text as a name, unless that is empty. */
  lemma NonBlankLine(line: string)
    ensures NonBlankStripped([line]) == if Strip(line) == "" then [] else [Strip(line)]
  {
    assert [line][1..] == [];
  }

  /** Some line of the file strips to `x`. */
  predicate StripsTo(lines: seq<string>, x: string) {
    exists j :: 0 <= j < |lines| && Strip(lines[j]) == x
  }

  /** A name comes from the file exactly when some line strips to it and it is not empty. */
  lemma {:induction false} NonBlankMembers(lines: seq<string>)
    ensures forall x :: x in NonBlankStripped(lines) <==> x != "" && StripsTo(lines, x)
    decreases |lines|
  {
    if lines != [] {
      var tail := lines[1..];
      NonBlankMembers(tail);
      NonBlankHead(lines);
      forall x ensures StripsTo(lines, x) <==> Strip(lines[0]) == x || StripsTo(tail, x) {
        if j :| 0 <= j < |lines| && Strip(lines[j]) == x {
          if j > 0 {
            assert Strip(tail[j - 1]) == x;
          }
        }
        if j :| 0 <= j < |tail| && Strip(tail[j]) == x {
          assert Strip(lines[j + 1]) == x;
        }
      }
    }
  }

  /** The file's names: the first line's, if it is not blank, then the rest's. */
  lemma NonBlankHead(lines: seq<string>)
    requires lines != []
    ensures forall x :: x in NonBlankStripped(lines) <==>
      (x != "" && x == Strip(lines[0])) || x in NonBlankStripped(lines[1..])
  {
  }

  /** Reading the lines of a file: they could not be read, or these are they. */
  datatype Contents = Unreadable | Readable(lines: seq<string>)

  /**
   * The names `main` hands to `process_usernames`, or the exit status it stops
   * with: 2 from the argument parser when neither `-u` nor `-f` is given (or both
   * are empty), 1 when the file cannot be read or no name is left.
   */
  function Usernames(username: Option<string>, file: Option<string>, contents: Contents): (r: Result<seq<string>, int>)
    ensures r.Failure? ==> r.error == 1 || r.error == 2
    ensures r.Success? ==> |r.value| > 0
    ensures r.Success? && Truthy(username) ==> r.value[0] == username.value
  {
    if !Truthy(username) && !Truthy(file) then Failure(2)
    else
      var given := if Truthy(username) then [username.value] else [];
      if Truthy(file) && contents.Unreadable? then Failure(1)
      else
        var names := given + (if Truthy(file) then NonBlankStripped(contents.lines) else []);
        if names == [] then Failure(1) else Success(names)
  }

  /**
   * When `main` stops: status 2 exactly when no name and no file is given; status
   * 1 exactly when the file cannot be read, or no `-u` name is given and every line
   * of the file is blank.
   */
  lemma UsernamesExit(username: Option<string>, file: Option<string>, contents: Contents)
    ensures Usernames(username, file, contents) == Failure(2) <==> !Truthy(username) && !Truthy(file)
    ensures Usernames(username, file, contents) == Failure(1) <==>
      (Truthy(file) && contents.Unreadable?) ||
      (!Truthy(username) && Truthy(file) && contents.Readable? &&
       forall j :: 0 <= j < |contents.lines| ==> Strip(contents.lines[j]) == "")
  {
    if Truthy(file) && contents.Readable? {
      var nb := NonBlankStripped(contents.lines);
      NonBlankMembers(contents.lines);
      if nb == [] {
        forall j | 0 <= j < |contents.lines| ensures Strip(contents.lines[j]) == "" {
          assert Strip(contents.lines[j]) !in nb;
        }
      } else {
        assert nb[0] in nb;
      }
    }
  }

  /**
   * The names `main` goes on with: the `-u` name first, unstripped, then exactly
   * the names of the file's lines (`NonBlankStripped`, whose order and repetitions
   * `NonBlankAppend` and `NonBlankLine` fix), each a non-empty stripped line.
   */
  lemma UsernamesNames(username: Option<string>, file: Option<string>, contents: Contents)
    ensures var r := Usernames(username, file, contents);
      var off := if Truthy(username) then 1 else 0;
      r.Success? ==>
        (Truthy(username) ==> r.value[0] == username.value) &&
        off <= |r.value| &&
        (!Truthy(file) ==> r.value == [username.value]) &&
        (Truthy(file) ==> contents.Readable? && r.value[off..] == NonBlankStripped(contents.lines)) &&
        forall k :: (if Truthy(username) then 1 else 0) <= k < |r.value| ==>
          Truthy(file) && contents.Readable? && r.value[k] != "" && Strip(r.value[k]) == r.value[k] &&
          exists j :: 0 <= j < |contents.lines| && Strip(contents.lines[j]) == r.value[k]
  {
    var r := Usernames(username, file, contents);
    if r.Success? && Truthy(file) {
      var nb := NonBlankStripped(contents.lines);
      NonBlankMembers(contents.lines);
      var off := if Truthy(username) then 1 else 0;
      assert r.value == (if Truthy(username) then [username.value] else []) + nb;
      assert r.value[off..] == nb;
      forall k | off <= k < |r.value|
        ensures r.value[k] == nb[k - off] && r.value[k] in nb
      {
      }
    }
  }
}
