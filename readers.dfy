/** The file readers: the statement splitter of the SQL reader, the table that
    picks a reader from a file's extension, and the dispatching `read_file`.
    The readers for delimited text, JSON, PDF and spreadsheets hand the file to
    a library; their output is represented by `Parsed`, without contents. */
module Readers {
  import opened Results
  import opened Text

  // ---------------------------------------------------------------------------
  // SQLReader.read: splitting a script into statements
  // ---------------------------------------------------------------------------

  /** A statement as the splitter returns it: non-empty, no whitespace at
      either end. */
  predicate IsTrimmed(stmt: string) {
    stmt != [] && !IsSpace(stmt[0]) && !IsSpace(stmt[|stmt| - 1])
  }

  /** `[p.strip() for p in pieces]`. */
  function StripAll(pieces: seq<string>): seq<string> {
    seq(|pieces|, i requires 0 <= i < |pieces| => Strip(pieces[i]))
  }

  /** `[s for s in stripped if s]`: the non-empty strings, in order. */
  function DropEmpty(stripped: seq<string>): (kept: seq<string>)
    ensures |kept| <= |stripped|
  {
    if stripped == [] then []
    else (if stripped[0] == [] then [] else [stripped[0]]) + DropEmpty(stripped[1..])
  }

  /** The comprehension `[p.strip() for p in pieces if p.strip()]`. */
  function KeepStatements(pieces: seq<string>): seq<string> {
    DropEmpty(StripAll(pieces))
  }

  /** Every string the filter keeps is non-empty and has any property that
      all of its input strings have. */
  lemma {:induction false} DropEmptyKeeps(stripped: seq<string>, p: string -> bool)
    requires forall i :: 0 <= i < |stripped| ==> p(stripped[i])
    ensures forall i :: 0 <= i < |DropEmpty(stripped)| ==> DropEmpty(stripped)[i] != [] && p(DropEmpty(stripped)[i])
  {
    if stripped != [] {
      var rest := DropEmpty(stripped[1..]);
      DropEmptyKeeps(stripped[1..], p);
      if stripped[0] != [] {
        var all := [stripped[0]] + rest;
        assert DropEmpty(stripped) == all;
        forall i | 0 <= i < |all| ensures all[i] != [] && p(all[i]) {
          if i > 0 {
            assert all[i] == rest[i - 1];
          }
        }
      } else {
        assert DropEmpty(stripped) == rest;
      }
    }
  }

  /** Every statement the comprehension keeps is trimmed and non-empty. */
  lemma KeepStatementsTrimmed(pieces: seq<string>)
    ensures forall i :: 0 <= i < |KeepStatements(pieces)| ==> IsTrimmed(KeepStatements(pieces)[i])
  {
    var stripped := StripAll(pieces);
    var p := (s: string) => s == [] || IsTrimmed(s);
    forall i | 0 <= i < |stripped| ensures p(stripped[i]) {
      StripIsTrimmed(pieces[i]);
    }
    DropEmptyKeeps(stripped, p);
  }

  /** A stripped piece is blank or trimmed. */
  lemma StripIsTrimmed(piece: string)
    ensures Strip(piece) == [] || IsTrimmed(Strip(piece))
  {
  }

  /** A character that no piece contains is in no statement either. */
  lemma KeepStatementsAvoid(pieces: seq<string>, c: char)
    requires forall j :: 0 <= j < |pieces| ==> c !in pieces[j]
    ensures forall i :: 0 <= i < |KeepStatements(pieces)| ==> c !in KeepStatements(pieces)[i]
  {
    var stripped := StripAll(pieces);
    var p := (s: string) => c !in s;
    assert forall i :: 0 <= i < |stripped| ==> p(stripped[i]);
    DropEmptyKeeps(stripped, p);
  }

  /** Stripping works piece by piece. */
  lemma StripAllAppend(a: seq<string>, b: seq<string>)
    ensures StripAll(a + b) == StripAll(a) + StripAll(b)
  {
    var ab := a + b;
    assert forall i :: 0 <= i < |a| ==> ab[i] == a[i];
    assert forall i :: |a| <= i < |ab| ==> ab[i] == b[i - |a|];
  }

  /** The filter works piece by piece and keeps the order. */
  lemma {:induction false} DropEmptyAppend(a: seq<string>, b: seq<string>)
    ensures DropEmpty(a + b) == DropEmpty(a) + DropEmpty(b)
  {
    if a == [] {
      assert a + b == b;
    } else {
      var ab := a + b;
      assert ab[0] == a[0] && ab[1..] == a[1..] + b;
      DropEmptyAppend(a[1..], b);
    }
  }

  /** The comprehension keeps piece order: filtering a concatenation is the
      concatenation of the filtered parts. */
  lemma KeepStatementsAppend(a: seq<string>, b: seq<string>)
    ensures KeepStatements(a + b) == KeepStatements(a) + KeepStatements(b)
  {
    StripAllAppend(a, b);
    DropEmptyAppend(StripAll(a), StripAll(b));
  }

  /** `SQLReader.read` on the text of a file: split at every `;`, strip each
      piece, drop the blank ones. Every statement is trimmed and non-empty and
      holds no `;`, and there are at most as many statements as there are
      pieces between semicolons. */
  function SplitStatements(content: string): (stmts: seq<string>)
    ensures forall i :: 0 <= i < |stmts| ==> IsTrimmed(stmts[i]) && ';' !in stmts[i]
    ensures |stmts| <= Count(content, ';') + 1
  {
    var pieces := SplitOn(content, ';');
    KeepStatementsTrimmed(pieces);
    KeepStatementsAvoid(pieces, ';');
    KeepStatements(pieces)
  }

  /** Every `;` is a statement boundary, wherever it stands (inside a quoted
      literal or a comment included): the statements of `a;b` are those of
      `a` followed by those of `b`. */
  lemma SplitStatementsAppend(a: string, b: string)
    ensures SplitStatements(a + ";" + b) == SplitStatements(a) + SplitStatements(b)
  {
    SplitOnConcat(a, b, ';');
    KeepStatementsAppend(SplitOn(a, ';'), SplitOn(b, ';'));
  }

  /** Text without a `;` is one statement, its stripped self, unless it is
      blank, in which case there is none. */
  lemma SplitStatementsSingle(s: string)
    requires ';' !in s
    ensures SplitStatements(s) == if IsBlank(s) then [] else [Strip(s)]
  {
    SplitOnNoSeparator(s, ';');
    assert SplitOn(s, ';')[1..] == [];
  }

  /** A `;` at the very end adds no statement. */
  lemma SplitStatementsTerminated(s: string)
    ensures SplitStatements(s + ";") == SplitStatements(s)
  {
    assert s + ";" == s + ";" + "";
    SplitStatementsAppend(s, "");
    SplitStatementsSingle("");
  }

  /** Two non-blank pieces around one `;` give two statements. */
  lemma SplitStatementsTwo(a: string, b: string)
    requires ';' !in a && ';' !in b && !IsBlank(a) && !IsBlank(b)
    ensures SplitStatements(a + ";" + b) == [Strip(a), Strip(b)]
  {
    var sa, sb := Strip(a), Strip(b);
    assert SplitStatements(a) == [sa] by { SplitStatementsSingle(a); }
    assert SplitStatements(b) == [sb] by { SplitStatementsSingle(b); }
    SplitStatementsAppend(a, b);
    Pair(sa, sb);
  }

  /** Two singletons make a pair. Kept apart so that its proof does not see
      `SplitStatements`. */
  lemma Pair<T>(x: T, y: T)
    ensures [x] + [y] == [x, y]
  {
  }

  /** The script of the reader's unit test gives its two statements. */
  lemma SplitStatementsExample(script: string)
    requires script == "SELECT * FROM users" + ";" + " SELECT COUNT(*) FROM orders" + ";"
    ensures SplitStatements(script) == ["SELECT * FROM users", "SELECT COUNT(*) FROM orders"]
  {
    var a, b := ExampleScriptPieces(script);
    SplitStatementsTerminated(a + ";" + b);
    SplitStatementsTwo(a, b);
    StripTrimmed(a);
    StripLeadingSpace(b);
    StripTrimmed(b[1..]);
  }

  /** The two pieces of the example script and their literal facts. */
  lemma ExampleScriptPieces(script: string) returns (a: string, b: string)
    requires script == "SELECT * FROM users" + ";" + " SELECT COUNT(*) FROM orders" + ";"
    ensures |a| > 0 && |b| > 1
    ensures a == "SELECT * FROM users" && b[1..] == "SELECT COUNT(*) FROM orders"
    ensures script == a + ";" + b + ";"
    ensures ';' !in a && ';' !in b
    ensures !IsSpace(a[0]) && !IsSpace(a[|a| - 1])
    ensures IsSpace(b[0]) && !IsSpace(b[1]) && !IsSpace(b[|b| - 1])
  {
    a := "SELECT * FROM users";
    b := " SELECT COUNT(*) FROM orders";
    NoSemicolon(a);
    NoSemicolon(b);
  }

  /** Literal facts: neither piece of the example holds a `;`. */
  lemma NoSemicolon(s: string)
    requires s == "SELECT * FROM users" || s == " SELECT COUNT(*) FROM orders"
    ensures ';' !in s
  {
    assert forall k :: 0 <= k < |s| ==> s[k] != ';';
  }

  /** A `;` inside a quoted literal still splits: the literal is cut in two. */
  lemma SplitStatementsQuoted(script: string)
    requires script == "INSERT INTO t VALUES ('a;b')"
    ensures SplitStatements(script) == ["INSERT INTO t VALUES ('a", "b')"]
  {
    var a, b := QuotedScriptPieces(script);
    SplitStatementsTwo(a, b);
    StripTrimmed(a);
    StripTrimmed(b);
  }

  /** The two pieces of the quoted script and their literal facts. */
  lemma QuotedScriptPieces(script: string) returns (a: string, b: string)
    requires script == "INSERT INTO t VALUES ('a;b')"
    ensures |a| > 0 && |b| > 0
    ensures a == "INSERT INTO t VALUES ('a" && b == "b')"
    ensures script == a + ";" + b
    ensures ';' !in a && ';' !in b
    ensures !IsSpace(a[0]) && !IsSpace(a[|a| - 1])
    ensures !IsSpace(b[0]) && !IsSpace(b[|b| - 1])
  {
    a := "INSERT INTO t VALUES ('a";
    b := "b')";
  }

  // ---------------------------------------------------------------------------
  // ReaderFactory: choosing a reader by extension
  // ---------------------------------------------------------------------------

  datatype ReaderKind = CsvReader | JsonReader | SqlReader | PdfReader | ExcelReader

  /** `ReaderFactory._readers`: lower-case extension to reader. */
  const Formats: map<string, ReaderKind> := map[
    ".csv" := CsvReader,
    ".json" := JsonReader,
    ".sql" := SqlReader,
    ".pdf" := PdfReader,
    ".xlsx" := ExcelReader,
    ".xls" := ExcelReader
  ]

  /** The `ValueError` of `get_reader`, with the extension it could not match. */
  datatype ReaderError = UnsupportedFormat(ext: string)

  function LowerChar(c: char): char {
    if 'A' <= c <= 'Z' then (c as int + 32) as char else c
  }

  /** `str.lower()` on the characters that can take part in a match against
      `Formats` (see README for why that is all of them). */
  function Lower(s: string): string {
    seq(|s|, i requires 0 <= i < |s| => LowerChar(s[i]))
  }

  /** `path` without what parsing it drops at its end: trailing slashes and
      trailing `.` components. What is left is empty, or ends in a character
      of a component other than `.`. */
  function DropTail(path: string): (p: string)
    ensures |p| <= |path| && p == path[..|p|]
    ensures p == [] || (p[|p| - 1] != '/' && p != "." && !(|p| >= 2 && p[|p| - 2] == '/' && p[|p| - 1] == '.'))
    decreases |path|
  {
    if path != [] && (path[|path| - 1] == '/' || path == "."
                      || (|path| >= 2 && path[|path| - 2] == '/' && path[|path| - 1] == '.'))
    then DropTail(path[..|path| - 1])
    else path
  }

  /** `Path(p).name` for a POSIX path: the last component, where parsing the
      path drops empty components (repeated or trailing slashes) and `.`
      components. */
  function BaseName(path: string): (name: string)
    ensures '/' !in name && name != "."
  {
    LastComponentShape(DropTail(path));
    LastComponent(DropTail(path))
  }

  /** The last component is a tail of `p`, after a `/` unless it is all of
      `p`. */
  lemma LastComponentShape(p: string)
    ensures var name := LastComponent(p);
            |name| <= |p| && name == p[|p| - |name|..] && (|name| < |p| ==> p[|p| - |name| - 1] == '/')
  {
  }

  /** A tail that parses to no component: slashes, and `.` components
      between them. */
  predicate NoComponent(t: string) {
    forall k :: 0 <= k < |t| && t[k] != '/' ==>
      t[k] == '.' && 0 < k && t[k - 1] == '/' && (k == |t| - 1 || t[k + 1] == '/')
  }

  /** A slash, or a `.` right after a slash, at the end of a tail that parses
      to nothing still leaves a tail that parses to nothing. */
  lemma NoComponentSnoc(t: string, x: char)
    requires NoComponent(t) && t != [] && (x == '/' || (x == '.' && t[|t| - 1] == '/'))
    ensures NoComponent(t + [x])
  {
    var w := t + [x];
    forall k | 0 <= k < |w| && w[k] != '/'
      ensures w[k] == '.' && 0 < k && w[k - 1] == '/' && (k == |w| - 1 || w[k + 1] == '/')
    {
      if k < |t| {
        assert w[k] == t[k] && w[k - 1] == t[k - 1];
        assert k < |t| - 1 ==> w[k + 1] == t[k + 1];
      }
    }
  }

  /** What `DropTail` drops parses to no component, and follows a slash
      unless nothing is left. */
  lemma {:induction false} DropTailRest(path: string)
    ensures NoComponent("/" + path[|DropTail(path)|..])
    ensures var p := DropTail(path); p != [] && |p| < |path| ==> path[|p|] == '/'
    decreases |path|
  {
    var p := DropTail(path);
    if p != path {
      var q := path[..|path| - 1];
      assert p == DropTail(q);
      DropTailRest(q);
      var x := path[|path| - 1];
      assert path[|p|..] == q[|p|..] + [x];
      assert "/" + path[|p|..] == ("/" + q[|p|..]) + [x];
      assert x == '.' ==> |q| == 0 || q[|q| - 1] == '/';
      if |p| < |q| {
        assert ("/" + q[|p|..])[|q| - |p|] == q[|q| - 1];
      }
      NoComponentSnoc("/" + q[|p|..], x);
    } else {
      assert path[|p|..] == [];
    }
  }

  /** `name` is a whole component of `path` after which nothing but slashes
      and `.` components follow; the empty name stands for a path made of
      those alone. */
  predicate LastNamed(path: string, name: string) {
    && (name == [] ==> NoComponent("/" + path))
    && (name != [] ==> exists j: nat :: j <= |path| && NamedAt(path, name, j))
  }

  /** `name` is the component of `path` that starts at `j`, and nothing but
      slashes and `.` components follow it. */
  predicate NamedAt(path: string, name: string, j: nat) {
    j + |name| <= |path| && path[j..j + |name|] == name
    && (j == 0 || path[j - 1] == '/') && NoComponent(path[j + |name|..])
  }

  /** The name is the path's last component other than `.`: a whole
      component after which nothing but slashes and `.` components follow;
      an empty name means the path has no other component. */
  lemma BaseNameLast(path: string)
    ensures LastNamed(path, BaseName(path))
  {
    var p := DropTail(path);
    var name := LastComponent(p);
    var rest := path[|p|..];
    DropTailRest(path);
    LastComponentShape(p);
    assert path == p + rest;
    if name == [] {
      assert p == [];
    } else {
      var j := |p| - |name|;
      assert path[j..j + |name|] == name;
      assert j > 0 ==> path[j - 1] == p[j - 1];
      assert path[j + |name|..] == rest;
      assert rest != [] ==> rest[0] == '/';
      NoComponentUnslash(rest);
      assert NamedAt(path, name, j);
    }
  }

  /** A tail that starts with a slash parses to nothing with or without one
      more slash in front. */
  lemma NoComponentUnslash(t: string)
    requires NoComponent("/" + t) && (t == [] || t[0] == '/')
    ensures NoComponent(t)
  {
    var w := "/" + t;
    forall k | 0 <= k < |t| && t[k] != '/'
      ensures t[k] == '.' && 0 < k && t[k - 1] == '/' && (k == |t| - 1 || t[k + 1] == '/')
    {
      assert t[k] == w[k + 1] && w[k] == t[k - 1];
      assert k < |t| - 1 ==> t[k + 1] == w[k + 2];
    }
  }

  /** What follows the last `/` of `p`, or all of `p` when it has none. */
  function LastComponent(p: string): (name: string)
    ensures '/' !in name
  {
    match LastIndexOf(p, '/')
    case None => p
    case Some(i) => p[i + 1..]
  }

  /** `Path(...).suffix` of a final component: from its last dot to its end,
      provided that dot is neither the first nor the last character; else
      empty. A non-empty suffix is a tail of the name that starts with its
      only dot and has at least one character after it. */
  function Suffix(name: string): (ext: string)
    ensures ext == [] || (2 <= |ext| < |name| && ext == name[|name| - |ext|..]
                          && ext[0] == '.' && '.' !in ext[1..])
  {
    match LastIndexOf(name, '.')
    case None => []
    case Some(i) => if 0 < i < |name| - 1 then name[i..] else []
  }

  /** `Path(file_path).suffix.lower()`. */
  function Extension(path: string): string {
    Lower(Suffix(BaseName(path)))
  }

  /** The lookup-or-raise step of `get_reader` on an extension. */
  function ReaderFor(ext: string): Result<ReaderKind, ReaderError>
  {
    if ext in Formats then Success(Formats[ext]) else Failure(UnsupportedFormat(ext))
  }

  /** `ReaderFactory.get_reader`: the reader `Formats` lists for the path's
      lower-cased extension, or `UnsupportedFormat` naming that extension. */
  function GetReader(path: string): (r: Result<ReaderKind, ReaderError>)
    ensures r.Success? <==> Extension(path) in Formats
    ensures r.Success? ==> r.value == Formats[Extension(path)]
    ensures r.Failure? ==> r.error == UnsupportedFormat(Extension(path))
  {
    ReaderFor(Extension(path))
  }

  /** The table, case by case: which extensions select which reader; every
      other extension (the empty one included) is rejected. */
  lemma ReaderForCases(ext: string)
    ensures ReaderFor(ext) == Success(CsvReader) <==> ext == ".csv"
    ensures ReaderFor(ext) == Success(JsonReader) <==> ext == ".json"
    ensures ReaderFor(ext) == Success(SqlReader) <==> ext == ".sql"
    ensures ReaderFor(ext) == Success(PdfReader) <==> ext == ".pdf"
    ensures ReaderFor(ext) == Success(ExcelReader) <==> ext == ".xlsx" || ext == ".xls"
    ensures ReaderFor(ext).Failure? <==> ext !in {".csv", ".json", ".sql", ".pdf", ".xlsx", ".xls"}
  {
  }

  /** Lower-casing works character by character. */
  lemma LowerSlice(s: string, i: nat, j: nat)
    requires i <= j <= |s|
    ensures Lower(s[i..j]) == Lower(s)[i..j]
  {
  }

  /** Lower-casing keeps `/` and `.` in place and makes no new ones, so it
      commutes with dropping the tail of a path. */
  lemma {:induction false} LowerDropTail(path: string)
    ensures DropTail(Lower(path)) == Lower(DropTail(path))
    decreases |path|
  {
    if path != [] {
      var n := |path|;
      var lp := Lower(path);
      assert lp[n - 1] == '/' <==> path[n - 1] == '/';
      assert lp[n - 1] == '.' <==> path[n - 1] == '.';
      assert n >= 2 ==> (lp[n - 2] == '/' <==> path[n - 2] == '/');
      LowerSlice(path, 0, n - 1);
      assert lp[..n - 1] == Lower(path[..n - 1]);
      LowerDropTail(path[..n - 1]);
    }
  }

  /** Lower-casing does not move the last copy of a non-letter. */
  lemma {:induction false} LowerLastIndexOf(s: string, c: char)
    requires LowerChar(c) == c && !('a' <= c <= 'z')
    ensures LastIndexOf(Lower(s), c) == LastIndexOf(s, c)
  {
    if s != [] {
      assert LowerChar(s[|s| - 1]) == c <==> s[|s| - 1] == c;
      if s[|s| - 1] != c {
        LowerSlice(s, 0, |s| - 1);
        assert Lower(s)[..|s| - 1] == Lower(s[..|s| - 1]);
        LowerLastIndexOf(s[..|s| - 1], c);
      }
    }
  }

  /** Lower-casing twice is lower-casing once. */
  lemma LowerIdempotent(s: string)
    ensures Lower(Lower(s)) == Lower(s)
  {
  }

  /** Lower-casing commutes with taking the last path component. */
  lemma BaseNameOfLower(path: string)
    ensures BaseName(Lower(path)) == Lower(BaseName(path))
  {
    LowerDropTail(path);
    LastComponentOfLower(DropTail(path));
  }

  /** Lower-casing commutes with taking what follows the last `/`. */
  lemma LastComponentOfLower(p: string)
    ensures LastComponent(Lower(p)) == Lower(LastComponent(p))
  {
    LowerLastIndexOf(p, '/');
    var k := LastIndexOf(p, '/');
    if k.None? {
      assert LastComponent(Lower(p)) == Lower(p);
    } else {
      LowerSlice(p, k.value + 1, |p|);
      assert LastComponent(Lower(p)) == Lower(p)[k.value + 1..];
    }
  }

  /** Lower-casing commutes with taking the suffix of a name. */
  lemma SuffixOfLower(name: string)
    ensures Suffix(Lower(name)) == Lower(Suffix(name))
  {
    var lower := Lower(name);
    var k := LastIndexOf(name, '.');
    LowerLastIndexOf(name, '.');
    SuffixFrom(name, k);
    SuffixFrom(lower, k);
    if k.Some? && 0 < k.value < |name| - 1 {
      LowerSlice(name, k.value, |name|);
    } else {
      var e: string := [];
      assert Lower(e) == e;
    }
  }

  /** `Suffix` in terms of the position of the last dot. */
  lemma SuffixFrom(name: string, k: Option<nat>)
    requires k == LastIndexOf(name, '.')
    ensures Suffix(name) == if k.Some? && 0 < k.value < |name| - 1 then name[k.value..] else []
  {
  }

  /** Lower-casing a path does not move its `/` and `.` separators, so the
      extension of the lower-cased path is the extension of the path. */
  lemma ExtensionOfLower(path: string)
    ensures Extension(Lower(path)) == Extension(path)
  {
    BaseNameOfLower(path);
    SuffixOfLower(BaseName(path));
    LowerIdempotent(Suffix(BaseName(path)));
  }

  /** Extension matching ignores letter case: two paths that differ only in
      the case of their letters get the same reader, or the same error. */
  lemma GetReaderIgnoresCase(p: string, q: string)
    requires Lower(p) == Lower(q)
    ensures GetReader(p) == GetReader(q)
  {
    ExtensionOfLower(p);
    ExtensionOfLower(q);
  }

  /** The base name of a path whose last `/` is at `j` (and is not its
      last character), when what follows it is not `.`. */
  lemma BaseNameAt(path: string, j: nat)
    requires j < |path| - 1 && path[j] == '/' && '/' !in path[j + 1..] && path[j + 1..] != "."
    ensures BaseName(path) == path[j + 1..]
  {
    var n := |path|;
    assert path[n - 1] == path[j + 1..][n - j - 2];
    assert n - 2 > j ==> path[n - 2] == path[j + 1..][n - j - 3];
    assert n - 2 == j ==> path[j + 1..] == [path[n - 1]];
    assert DropTail(path) == path;
    LastIndexOfAt(path, '/', j);
    assert LastComponent(path) == path[j + 1..];
  }

  /** A path without a `/` is its own name, unless it is `.`. */
  lemma BaseNameOfName(name: string)
    requires '/' !in name
    ensures BaseName(name) == if name == "." then [] else name
  {
    if name == "." {
      assert DropTail(name) == DropTail([]) == [];
    } else {
      assert DropTail(name) == name by {
        if name != [] {
          assert name[|name| - 1] in name;
          assert |name| >= 2 ==> name[|name| - 2] in name;
        }
      }
      assert LastComponent(name) == name;
    }
  }

  /** The extension of a file name whose last dot is at `i`. */
  lemma ExtensionAt(name: string, i: nat)
    requires '/' !in name && i < |name| && name[i] == '.' && '.' !in name[i + 1..]
    ensures Extension(name) == if 0 < i < |name| - 1 then Lower(name[i..]) else []
  {
    BaseNameOfName(name);
    if name != "." {
      LastIndexOfAt(name, '.', i);
    }
  }

  /** A file name without a dot has the empty extension. */
  lemma ExtensionNoDot(name: string)
    requires '/' !in name && '.' !in name
    ensures Extension(name) == []
  {
    assert name != "." by {
      if |name| == 1 {
        assert name[0] in name;
      }
    }
    BaseNameOfName(name);
  }

  /** The factory's unit test for a CSV file. */
  lemma GetReaderCsvFile(path: string)
    requires path == "test.csv"
    ensures GetReader(path) == Success(CsvReader)
  {
    assert Extension(path) == ".csv" by {
      assert Lower(path[4..]) == ".csv";
      ExtensionAt(path, 4);
    }
    ReaderForCases(".csv");
  }

  /** The factory's unit test for a JSON file. */
  lemma GetReaderJsonFile(path: string)
    requires path == "test.json"
    ensures GetReader(path) == Success(JsonReader)
  {
    assert Extension(path) == ".json" by {
      assert Lower(path[4..]) == ".json";
      ExtensionAt(path, 4);
    }
    ReaderForCases(".json");
  }

  /** The factory's unit test for an SQL file. */
  lemma GetReaderSqlFile(path: string)
    requires path == "test.sql"
    ensures GetReader(path) == Success(SqlReader)
  {
    assert Extension(path) == ".sql" by {
      assert Lower(path[4..]) == ".sql";
      ExtensionAt(path, 4);
    }
    ReaderForCases(".sql");
  }

  /** The factory's unit test for an unsupported `.txt` file. */
  lemma GetReaderTextFile(path: string)
    requires path == "test.txt"
    ensures GetReader(path) == Failure(UnsupportedFormat(".txt"))
  {
    assert Extension(path) == ".txt" by {
      assert Lower(path[4..]) == ".txt";
      ExtensionAt(path, 4);
    }
    TextUnsupported(".txt");
  }

  /** `.txt` is not in the table. */
  lemma TextUnsupported(ext: string)
    requires ext == ".txt"
    ensures ReaderFor(ext) == Failure(UnsupportedFormat(ext))
  {
    assert ext[1] == 't';
    assert ext != ".csv" && ext != ".json" && ext != ".sql" && ext != ".pdf" && ext != ".xlsx" && ext != ".xls";
    ReaderForCases(ext);
  }

  /** An upper-case extension is matched after lower-casing. */
  lemma GetReaderUpperCase(path: string)
    requires path == "Report.XLSX"
    ensures GetReader(path) == Success(ExcelReader)
  {
    assert Extension(path) == ".xlsx" by {
      assert Lower(path[6..]) == ".xlsx";
      ExtensionAt(path, 6);
    }
    ReaderForCases(".xlsx");
  }

  /** A name without a dot has no extension and is rejected. */
  lemma GetReaderNoDot(path: string)
    requires path == "Makefile"
    ensures GetReader(path) == Failure(UnsupportedFormat(""))
  {
    ExtensionNoDot(path);
  }

  /** A hidden file whose only dot comes first has no extension. */
  lemma GetReaderHiddenFile(path: string)
    requires path == ".csv"
    ensures GetReader(path) == Failure(UnsupportedFormat(""))
  {
    ExtensionAt(path, 0);
  }

  /** A dot in a directory name is not an extension. */
  lemma GetReaderDottedDirectory(path: string)
    requires path == "v1.2/notes"
    ensures GetReader(path) == Failure(UnsupportedFormat(""))
  {
    DottedDirectoryExtension(path);
    ReaderForCases([]);
  }

  /** The last component of `v1.2/notes` has no dot. */
  lemma DottedDirectoryExtension(path: string)
    requires path == "v1.2/notes"
    ensures Extension(path) == []
  {
    var name := path[5..];
    BaseNameAt(path, 4);
    assert name == "notes";
    ExtensionOfName(path, name);
    NotesHasNoSuffix(name);
  }

  /** `notes` has no dot, so no suffix. */
  lemma NotesHasNoSuffix(name: string)
    requires name == "notes"
    ensures Suffix(name) == []
  {
    assert '.' !in name;
  }

  /** The extension depends on the path only through its name. */
  lemma ExtensionOfName(path: string, name: string)
    requires BaseName(path) == name
    ensures Extension(path) == Lower(Suffix(name))
  {
  }

  /** A trailing `.` component is dropped before the name is taken, so
      `x.csv/.` is read as a CSV file. */
  lemma GetReaderDotComponent(path: string)
    requires path == "x.csv/" + "."
    ensures GetReader(path) == Success(CsvReader)
  {
    BaseNameDotComponent(path);
    ExtensionOfName(path, "x.csv");
    CsvFileSuffix("x.csv");
    ReaderForCases(".csv");
  }

  /** `x.csv` has the suffix `.csv`, already in lower case. */
  lemma CsvFileSuffix(name: string)
    requires name == "x.csv"
    ensures Lower(Suffix(name)) == ".csv"
  {
    SuffixAt(name, 1);
    assert Lower(name[1..]) == ".csv";
  }

  /** The name of `x.csv/.` is `x.csv`. */
  lemma BaseNameDotComponent(path: string)
    requires path == "x.csv/" + "."
    ensures BaseName(path) == "x.csv"
  {
    var dir := path[..6];
    var file := path[..5];
    DropTailStep(path);
    assert path[..6] == dir && dir[..5] == file;
    DropTailStep(dir);
    assert file == "x.csv" && '/' !in file;
    BaseNameOfName(file);
  }

  /** One step of `DropTail`: a trailing slash, or a trailing `.` after a
      slash, is dropped. */
  lemma DropTailStep(path: string)
    requires path != [] && (path[|path| - 1] == '/' || (|path| >= 2 && path[|path| - 2] == '/' && path[|path| - 1] == '.'))
    ensures DropTail(path) == DropTail(path[..|path| - 1])
  {
  }

  /** The suffix of a name whose last dot is at `i`. */
  lemma SuffixAt(name: string, i: nat)
    requires i < |name| && name[i] == '.' && '.' !in name[i + 1..]
    ensures Suffix(name) == if 0 < i < |name| - 1 then name[i..] else []
  {
    LastIndexOfAt(name, '.', i);
  }

  // ---------------------------------------------------------------------------
  // ReaderFactory.read_file and DataFrameReader
  // ---------------------------------------------------------------------------

  /** What a reader returns: the statements of a script, or what the format's
      library makes of the file at `source` (not modelled). */
  datatype FileData = Statements(stmts: seq<string>) | Parsed(kind: ReaderKind, source: string)

  /** `reader.read(source)` for a reader of kind `kind`, given the file's text. */
  function Read(kind: ReaderKind, source: string, content: string): FileData {
    if kind == SqlReader then Statements(SplitStatements(content)) else Parsed(kind, source)
  }

  /** Reading with the reader registered for `ext`. */
  function ReadFileFor(ext: string, path: string, content: string): (r: Result<FileData, ReaderError>)
    ensures r.Failure? <==> ext !in Formats
    ensures r.Failure? ==> r.error == UnsupportedFormat(ext)
    ensures ext == ".sql" ==> r == Success(Statements(SplitStatements(content)))
    ensures r.Success? && r.value.Parsed? ==> r.value == Parsed(Formats[ext], path)
  {
    assert ext == ".sql" ==> ext in Formats && Formats[ext] == SqlReader;
    match ReaderFor(ext)
    case Failure(e) => Failure(e)
    case Success(kind) => Success(Read(kind, path, content))
  }

  /** `ReaderFactory.read_file`: read with the reader chosen for the path. It
      fails exactly when no reader is registered for the extension, and a
      `.sql` file yields the statements of its text. */
  function ReadFile(path: string, content: string): (r: Result<FileData, ReaderError>)
    ensures r.Failure? <==> Extension(path) !in Formats
    ensures r.Failure? ==> r.error == UnsupportedFormat(Extension(path))
    ensures Extension(path) == ".sql" ==> r == Success(Statements(SplitStatements(content)))
    ensures r.Success? && r.value.Parsed? ==> r.value == Parsed(Formats[Extension(path)], path)
  {
    var ext := Extension(path);
    ReadFileFor(ext, path, content)
  }
}
