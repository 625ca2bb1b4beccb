/** The parsers of /proc/<pid>/stat and of the lines of /proc/<pid>/mountinfo. */
module ProcParse {
  import opened Types

  /** strings.Split on single spaces: always at least one field, and empty fields are kept. */
  function Split(s: string): (fields: seq<string>)
    ensures |fields| >= 1
  {
    if s == "" then [""]
    else
      var rest := Split(s[1..]);
      if s[0] == ' ' then [""] + rest else [[s[0]] + rest[0]] + rest[1..]
  }

  function Join(fields: seq<string>): string
    requires |fields| >= 1
  {
    if |fields| == 1 then fields[0] else fields[0] + " " + Join(fields[1..])
  }

  predicate SpaceFree(fields: seq<string>) {
    forall f :: f in fields ==> ' ' !in f
  }

  lemma JoinWithField(f: string, rest: seq<string>)
    requires |rest| >= 1
    ensures Join([f] + rest) == f + " " + Join(rest)
  {
    assert ([f] + rest)[1..] == rest;
  }

  lemma JoinWithChar(c: char, fields: seq<string>)
    requires |fields| >= 1
    ensures Join([[c] + fields[0]] + fields[1..]) == [c] + Join(fields)
  {
    var f, rest := fields[0], fields[1..];
    assert fields == [f] + rest;
    if rest == [] {
      assert [[c] + f] + rest == [[c] + f];
    } else {
      JoinWithField(f, rest);
      JoinWithField([c] + f, rest);
      CharFirst(c, f, Join(rest));
    }
  }

  lemma CharFirst(c: char, x: string, y: string)
    ensures ([c] + x) + " " + y == [c] + (x + " " + y)
  {
  }

  lemma SpaceFreeOneMore(f: string, rest: seq<string>)
    requires ' ' !in f && SpaceFree(rest)
    ensures SpaceFree([f] + rest)
  {
  }

  lemma SpaceFreeTail(fields: seq<string>)
    requires |fields| >= 1 && SpaceFree(fields)
    ensures ' ' !in fields[0] && SpaceFree(fields[1..])
  {
    assert fields[0] in fields && forall f :: f in fields[1..] ==> f in fields;
  }

  lemma {:induction false} JoinOfSplit(s: string)
    ensures Join(Split(s)) == s && SpaceFree(Split(s))
  {
    if s != "" {
      var rest := Split(s[1..]);
      JoinOfSplit(s[1..]);
      SpaceFreeTail(rest);
      if s[0] == ' ' {
        JoinWithField("", rest);
        SpaceFreeOneMore("", rest);
        assert s == "" + " " + s[1..];
      } else {
        JoinWithChar(s[0], rest);
        SpaceFreeOneMore([s[0]] + rest[0], rest[1..]);
        assert s == [s[0]] + s[1..];
      }
    }
  }

  /** A field without spaces, and nothing or a space after it. */
  lemma {:induction false} SplitField(field: string, rest: string)
    requires ' ' !in field
    ensures Split(field) == [field]
    ensures Split(field + " " + rest) == [field] + Split(rest)
  {
    var s := field + " " + rest;
    if field == "" {
      assert s[1..] == rest;
    } else {
      SplitField(field[1..], rest);
      assert s[1..] == field[1..] + " " + rest;
      assert field == [field[0]] + field[1..];
    }
  }

  lemma {:induction false} SplitOfJoin(fields: seq<string>)
    requires |fields| >= 1 && SpaceFree(fields)
    ensures Split(Join(fields)) == fields
  {
    assert fields[0] in fields;
    if |fields| == 1 {
      SplitField(fields[0], "");
    } else {
      assert forall f :: f in fields[1..] ==> f in fields;
      SplitOfJoin(fields[1..]);
      SplitField(fields[0], Join(fields[1..]));
    }
  }

  /** strings.IndexByte, or |s| when it is not there. */
  function Index(s: string, c: char): (i: nat)
    ensures i <= |s| && c !in s[..i] && (i < |s| ==> s[i] == c)
  {
    if s == "" then 0
    else if s[0] == c then 0
    else var i := Index(s[1..], c); assert s[..1 + i] == [s[0]] + s[1..][..i]; 1 + i
  }

  /** One more than strings.LastIndexByte, so 0 when it is not there. */
  function AfterLast(s: string, c: char): (i: nat)
    ensures i <= |s| && c !in s[i..] && (i > 0 ==> s[i - 1] == c)
  {
    if s == "" then 0
    else if s[|s| - 1] == c then |s|
    else var i := AfterLast(s[..|s| - 1], c); assert s[i..] == s[..|s| - 1][i..] + [s[|s| - 1]]; i
  }

  datatype Stat = Fields(fields: seq<string>) | NotParenthesized | Panic

  /** The name is in parentheses, and something comes before and after it. */
  predicate Delimited(stat: string) {
    var b, e := Index(stat, '('), AfterLast(stat, ')') - 1;
    1 <= b < e < |stat| - 1
  }

  function AllFields(before: string, name: string, after: string): Stat {
    Fields(Split(before) + [name] + Split(after))
  }

  /** A slice out of bounds panics: nothing before the name, nothing after it, or parentheses in the wrong order. */
  function ParseTaskStat(stat: string): Stat {
    var b, e := Index(stat, '('), AfterLast(stat, ')') - 1;
    if b == |stat| || e == -1 then NotParenthesized
    else if !Delimited(stat) then Panic
    else AllFields(stat[..b - 1], stat[b + 1..e], stat[e + 2..])
  }

  /** A line with the task's name in it. */
  function Line(before: string, name: string, after: string): string {
    before + " (" + name + ") " + after
  }

  /** A line of /proc/<pid>/stat. */
  function TaskStat(before: seq<string>, name: string, after: seq<string>): string
    requires |before| >= 1 && |after| >= 1
  {
    Line(Join(before), name, Join(after))
  }

  /** `s` is the line of these three parts, seen from where they are. */
  predicate Layout(s: string, x: string, name: string, y: string) {
    var b, e := |x| + 1, |x| + 2 + |name|;
    && |s| == e + 2 + |y|
    && s[..b - 1] == x && s[b - 1] == ' ' && s[b] == '(' && s[b + 1..e] == name && s[e] == ')' && s[e + 1] == ' ' &&
       s[e + 2..] == y
  }

  lemma LineLayout(x: string, name: string, y: string)
    ensures Layout(Line(x, name, y), x, name, y)
  {
    var front, rest := x + " (", ") " + y;
    var s := front + name + rest;
    assert s == Line(x, name, y);
    assert s[|front|..|front| + |name|] == name && s[|front| + |name|..] == rest && s[..|front|] == front;
    assert front[..|x|] == x && rest[2..] == y;
    assert s[..|x|] == front[..|x|] && s[|front| + |name| + 2..] == rest[2..];
  }

  lemma LayoutIsLine(s: string, x: string, name: string, y: string)
    requires Layout(s, x, name, y)
    ensures s == Line(x, name, y)
  {
    var b, e := |x| + 1, |x| + 2 + |name|;
    assert s == s[..b - 1] + [s[b - 1]] + [s[b]] + s[b + 1..e] + [s[e]] + [s[e + 1]] + s[e + 2..];
  }

  lemma IndexIs(s: string, c: char, i: nat)
    requires i < |s| && s[i] == c && c !in s[..i]
    ensures Index(s, c) == i
  {
    var k := Index(s, c);
    assert forall j :: 0 <= j < k ==> s[j] in s[..k];
    assert forall j :: 0 <= j < i ==> s[j] in s[..i];
  }

  lemma AfterLastIs(s: string, c: char, i: nat)
    requires i < |s| && s[i] == c && c !in s[i + 1..]
    ensures AfterLast(s, c) == i + 1
  {
    var k := AfterLast(s, c);
    assert forall j :: k <= j < |s| ==> s[j] in s[k..];
    assert forall j :: i + 1 <= j < |s| ==> s[j] in s[i + 1..];
  }

  lemma FindsName(s: string, x: string, name: string, y: string)
    requires Layout(s, x, name, y) && '(' !in x && ')' !in y
    ensures Index(s, '(') == |x| + 1 && AfterLast(s, ')') == |x| + 3 + |name|
  {
    var b, e := |x| + 1, |x| + 2 + |name|;
    assert s[..b] == s[..b - 1] + [s[b - 1]];
    IndexIs(s, '(', b);
    assert s[e + 1..] == [s[e + 1]] + s[e + 2..];
    AfterLastIs(s, ')', e);
  }

  lemma ParsesLayout(s: string, x: string, name: string, y: string)
    requires Layout(s, x, name, y) && '(' !in x && ')' !in y
    ensures ParseTaskStat(s) == AllFields(x, name, y)
  {
    FindsName(s, x, name, y);
  }

  /** Printing then parsing gives the fields back, whatever the task is called: with spaces, with parentheses, empty. */
  lemma TaskStatRoundTrip(before: seq<string>, name: string, after: seq<string>)
    requires |before| >= 1 && |after| >= 1 && SpaceFree(before) && SpaceFree(after)
    requires '(' !in Join(before) && ')' !in Join(after)
    ensures ParseTaskStat(TaskStat(before, name, after)) == Fields(before + [name] + after)
  {
    LineLayout(Join(before), name, Join(after));
    ParsesLayout(TaskStat(before, name, after), Join(before), name, Join(after));
    SplitOfJoin(before);
    SplitOfJoin(after);
  }

  /** Parsing then printing gives the line back if and only if the name is set off by spaces; the parser drops those two
      characters without looking at them. */
  lemma ParsedPrintsBack(stat: string, b: nat, e: nat, before: seq<string>, after: seq<string>)
    requires b == Index(stat, '(') && e == AfterLast(stat, ')') - 1 && Delimited(stat)
    requires before == Split(stat[..b - 1]) && after == Split(stat[e + 2..])
    ensures TaskStat(before, stat[b + 1..e], after) == stat <==> stat[b - 1] == ' ' && stat[e + 1] == ' '
  {
    PartsPrintBack(stat, b, e, before, after);
  }

  lemma PartsPrintBack(s: string, b: nat, e: nat, before: seq<string>, after: seq<string>)
    requires 1 <= b < e < |s| - 1 && s[b] == '(' && s[e] == ')' && before == Split(s[..b - 1]) &&
             after == Split(s[e + 2..])
    ensures TaskStat(before, s[b + 1..e], after) == s <==> s[b - 1] == ' ' && s[e + 1] == ' '
  {
    Reprinted(s[..b - 1], s[b + 1..e], s[e + 2..], before, after);
    LineBack(s, b, e);
  }

  lemma Reprinted(x: string, name: string, y: string, before: seq<string>, after: seq<string>)
    requires before == Split(x) && after == Split(y)
    ensures TaskStat(before, name, after) == Line(x, name, y)
  {
    JoinOfSplit(x);
    JoinOfSplit(y);
  }

  lemma LineBack(s: string, b: nat, e: nat)
    requires 1 <= b < e < |s| - 1 && s[b] == '(' && s[e] == ')'
    ensures Line(s[..b - 1], s[b + 1..e], s[e + 2..]) == s <==> s[b - 1] == ' ' && s[e + 1] == ' '
  {
    var x, name, y := s[..b - 1], s[b + 1..e], s[e + 2..];
    LineLayout(x, name, y);
    if s[b - 1] == ' ' && s[e + 1] == ' ' {
      LayoutIsLine(s, x, name, y);
    }
  }

  lemma HasOpen(s: string)
    ensures '(' in s <==> Index(s, '(') < |s|
    ensures s != "" ==> (s[0] == '(' <==> Index(s, '(') == 0)
  {
    var b := Index(s, '(');
    assert b == |s| ==> s[..b] == s;
    assert b > 0 ==> s[0] in s[..b];
  }

  lemma HasClose(s: string)
    ensures ')' in s <==> AfterLast(s, ')') > 0
    ensures s != "" ==> (s[|s| - 1] == ')' <==> AfterLast(s, ')') == |s|)
  {
    var e := AfterLast(s, ')');
    assert e == 0 ==> s[e..] == s;
    assert e < |s| ==> s[|s| - 1] in s[e..];
  }

  /** No parenthesis closes behind one that opens. */
  ghost predicate Reversed(s: string) {
    forall i, j :: 0 <= i < j < |s| && s[i] == '(' ==> s[j] != ')'
  }

  lemma ReversedExactly(s: string)
    requires Index(s, '(') < |s| && AfterLast(s, ')') > 0
    ensures Reversed(s) <==> AfterLast(s, ')') - 1 < Index(s, '(')
  {
    var b, e := Index(s, '('), AfterLast(s, ')') - 1;
    if e < b {
      forall i, j | 0 <= i < j < |s| ensures s[i] == '(' ==> s[j] != ')' {
        if i < b {
          NotBefore(s, '(', b, i);
        } else {
          NotBehind(s, ')', e + 1, j);
        }
      }
    } else {
      assert s[b] == '(' && s[e] == ')';
    }
  }

  lemma NotBefore(s: string, c: char, b: nat, i: nat)
    requires i < b <= |s| && c !in s[..b]
    ensures s[i] != c
  {
    assert s[..b][i] == s[i];
  }

  lemma NotBehind(s: string, c: char, e: nat, j: nat)
    requires e <= j < |s| && c !in s[e..]
    ensures s[j] != c
  {
    assert s[e..][j - e] == s[j];
  }

  /** Parsing panics exactly on the lines where the name comes first or last or its parentheses are the wrong way
      round. */
  lemma PanicsExactly(stat: string)
    ensures ParseTaskStat(stat).Panic? <==>
      '(' in stat && ')' in stat && (stat[0] == '(' || stat[|stat| - 1] == ')' || Reversed(stat))
  {
    HasOpen(stat);
    HasClose(stat);
    if '(' in stat && ')' in stat {
      ReversedExactly(stat);
      ParsesOrPanics(stat);
    }
  }

  lemma ParsesOrPanics(stat: string)
    requires Index(stat, '(') < |stat| && AfterLast(stat, ')') > 0
    ensures ParseTaskStat(stat).Panic? <==> !Delimited(stat)
  {
  }

  /** Which of the three a line is, and the fields it has: split before the space in front of the first parenthesis that
      opens, the name up to the last that closes, split behind the space after that. */
  lemma ParsesExactly(stat: string, b: nat, e: nat)
    requires 1 <= b < e < |stat| - 1 && stat[b] == '(' && '(' !in stat[..b] && stat[e] == ')' && ')' !in stat[e + 1..]
    ensures ParseTaskStat(stat) == Fields(Split(stat[..b - 1]) + [stat[b + 1..e]] + Split(stat[e + 2..]))
  {
    IndexIs(stat, '(', b);
    AfterLastIs(stat, ')', e);
  }

  lemma RefusedExactly(stat: string)
    ensures ParseTaskStat(stat).NotParenthesized? <==> '(' !in stat || ')' !in stat
  {
    HasOpen(stat);
    HasClose(stat);
  }

  datatype MountInfo = MountInfo(root: string, fsType: string) | MissingSeparator | TooFewFields | MissingFsType

  function FieldIndex(fields: seq<string>, f: string): (i: nat)
    ensures i <= |fields| && f !in fields[..i] && (i < |fields| ==> fields[i] == f)
  {
    if fields == [] then 0
    else if fields[0] == f then 0
    else var i := FieldIndex(fields[1..], f); assert fields[..1 + i] == [fields[0]] + fields[1..][..i]; 1 + i
  }

  function ParseFields(fields: seq<string>): MountInfo {
    var sep := FieldIndex(fields, "-");
    if sep == |fields| then MissingSeparator
    else if sep < 6 then TooFewFields
    else if sep + 1 >= |fields| || fields[sep + 1] == "" then MissingFsType
    else MountInfo(fields[3], fields[sep + 1])
  }

  function ParseMountInfoLine(line: string): MountInfo {
    ParseFields(Split(line))
  }

  lemma ParsesJoined(fields: seq<string>)
    requires |fields| >= 1 && SpaceFree(fields)
    ensures ParseMountInfoLine(Join(fields)) == ParseFields(fields)
  {
    SplitOfJoin(fields);
  }

  lemma FieldIndexIs(before: seq<string>, after: seq<string>)
    requires "-" !in before
    ensures FieldIndex(before + ["-"] + after, "-") == |before|
  {
    var fields := before + ["-"] + after;
    var sep := FieldIndex(fields, "-");
    assert fields[|before|] == "-";
    assert forall j :: 0 <= j < sep ==> fields[j] in fields[..sep];
    assert forall j :: 0 <= j < |before| ==> fields[j] in before;
  }

  /** What a line whose fields have no spaces parses to: root and type are recovered whatever comes after the type, an
      empty mount source included, and each missing part is reported. */
  lemma MountInfoRoundTrip(before: seq<string>, after: seq<string>)
    requires SpaceFree(before) && SpaceFree(after) && "-" !in before
    ensures ParseMountInfoLine(Join(before + ["-"] + after)) ==
      if |before| < 6 then TooFewFields
      else if after == [] || after[0] == "" then MissingFsType
      else MountInfo(before[3], after[0])
  {
    AllSpaceFree(before, after);
    ParsesJoined(before + ["-"] + after);
    FieldsRoundTrip(before, after);
  }

  lemma AllSpaceFree(before: seq<string>, after: seq<string>)
    requires SpaceFree(before) && SpaceFree(after)
    ensures SpaceFree(before + ["-"] + after)
  {
    assert ' ' !in "-";
  }

  lemma FieldsRoundTrip(before: seq<string>, after: seq<string>)
    requires "-" !in before
    ensures ParseFields(before + ["-"] + after) ==
      if |before| < 6 then TooFewFields
      else if after == [] || after[0] == "" then MissingFsType
      else MountInfo(before[3], after[0])
  {
    FieldIndexIs(before, after);
  }

  /** A line without a separator is refused. */
  lemma SeparatorIsNeeded(fields: seq<string>)
    requires |fields| >= 1 && SpaceFree(fields)
    ensures ParseMountInfoLine(Join(fields)) == MissingSeparator <==> "-" !in fields
  {
    ParsesJoined(fields);
    FoundOrNot(fields);
  }

  lemma FoundOrNot(fields: seq<string>)
    ensures FieldIndex(fields, "-") == |fields| <==> "-" !in fields
  {
    assert fields[..|fields|] == fields;
  }
}
