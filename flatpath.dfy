/** The flat, dot-separated paths of path.go: `parse` splits a path string
    at every `.` (Go's `strings.Split(path, ".")`). */
module FlatPath {
  /** `Path` of path.go: the field names, outermost first. */
  type Path = seq<string>

  /** `parse`: the pieces of `path` between the dots, in order. The empty
      string is one empty piece; two adjacent dots enclose an empty piece. */
  function Parse(path: string): (r: Path)
    ensures |r| >= 1
    decreases |path|
  {
    if path == [] then [""]
    else
      var rest := Parse(path[1..]);
      if path[0] == '.' then [""] + rest
      else [[path[0]] + rest[0]] + rest[1..]
  }

  /** `strings.Join(names, ".")`, the inverse direction. */
  function Join(names: Path): string
    requires |names| >= 1
    decreases |names|
  {
    if |names| == 1 then names[0] else names[0] + "." + Join(names[1..])
  }

  /** The number of dots in `s`. */
  function Dots(s: string): nat
    decreases |s|
  {
    if s == [] then 0 else (if s[0] == '.' then 1 else 0) + Dots(s[1..])
  }

  /** No piece contains a dot. */
  lemma {:induction false} ParsePiecesHaveNoDot(path: string)
    ensures forall i | 0 <= i < |Parse(path)| :: '.' !in Parse(path)[i]
    decreases |path|
  {
    if path != [] {
      var rest := Parse(path[1..]);
      ParsePiecesHaveNoDot(path[1..]);
      if path[0] != '.' {
        var r := Parse(path);
        assert r[0] == [path[0]] + rest[0];
        forall i | 0 < i < |r| ensures '.' !in r[i] {
          assert r[i] == rest[i];
        }
      }
    }
  }

  /** There is one piece more than there are dots. */
  lemma {:induction false} ParseCountsDots(path: string)
    ensures |Parse(path)| == Dots(path) + 1
    decreases |path|
  {
    if path != [] {
      ParseCountsDots(path[1..]);
    }
  }

  lemma {:induction false} JoinConsFirst(c: char, names: Path)
    requires |names| >= 1
    ensures Join([[c] + names[0]] + names[1..]) == [c] + Join(names)
  {
    var ns := [[c] + names[0]] + names[1..];
    if |names| > 1 {
      assert ns[1..] == names[1..];
    }
  }

  /** Joining the pieces with dots gives back the path: nothing is lost and
      the left-to-right order is kept. */
  lemma {:induction false} JoinParse(path: string)
    ensures Join(Parse(path)) == path
    decreases |path|
  {
    if path != [] {
      var rest := Parse(path[1..]);
      JoinParse(path[1..]);
      if path[0] == '.' {
        assert ([""] + rest)[1..] == rest;
      } else {
        JoinConsFirst(path[0], rest);
      }
      assert [path[0]] + path[1..] == path;
    }
  }

  /** A dot-free prefix only extends the first piece of what follows it. */
  lemma {:induction false} ParseUnderPrefix(prefix: string, tail: string)
    requires '.' !in prefix
    ensures Parse(prefix + tail) == [prefix + Parse(tail)[0]] + Parse(tail)[1..]
    decreases |prefix|
  {
    if prefix == [] {
      assert prefix + tail == tail && prefix + Parse(tail)[0] == Parse(tail)[0];
      assert [Parse(tail)[0]] + Parse(tail)[1..] == Parse(tail);
    } else {
      var s := prefix + tail;
      assert s[0] == prefix[0] && s[1..] == prefix[1..] + tail;
      ParseUnderPrefix(prefix[1..], tail);
      assert [prefix[0]] + (prefix[1..] + Parse(tail)[0]) == prefix + Parse(tail)[0];
    }
  }

  /** Parsing dot-free names joined with dots gives the names back. */
  lemma {:induction false} ParseJoin(names: Path)
    requires |names| >= 1
    requires forall i | 0 <= i < |names| :: '.' !in names[i]
    ensures Parse(Join(names)) == names
    decreases |names|
  {
    if |names| == 1 {
      ParseUnderPrefix(names[0], "");
      assert names[0] + "" == names[0];
    } else {
      var tail := Join(names[1..]);
      ParseJoin(names[1..]);
      assert names[0] + "." + tail == names[0] + ("." + tail);
      ParseUnderPrefix(names[0], "." + tail);
      assert ("." + tail)[0] == '.' && ("." + tail)[1..] == tail;
      assert Parse("." + tail) == [""] + names[1..];
      assert names[0] + "" == names[0];
      assert [names[0]] + names[1..] == names;
    }
  }

  /** A path without a dot is one piece: itself. */
  lemma ParseSingle(path: string)
    ensures '.' !in path ==> Parse(path) == [path]
  {
    if '.' !in path {
      ParseJoin([path]);
    }
  }
}
