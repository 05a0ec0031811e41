/** The subscriber export of the admin dashboard: a header line and one line
    of three quoted fields per subscriber, with quotes in names doubled. */
module DashboardCsv {
  import opened Wrappers
  import opened Types
  import opened Text
  import opened CsvRead

  function CountQuotes(s: string): nat
  {
    if |s| == 0 then 0 else (if s[0] == '"' then 1 else 0) + CountQuotes(s[1..])
  }

  /** `name.replace(/"/g, '""')`. */
  function EscapeQuotes(s: string): (r: string)
    ensures |r| == |s| + CountQuotes(s)
  {
    if |s| == 0 then ""
    else (if s[0] == '"' then "\"\"" else [s[0]]) + EscapeQuotes(s[1..])
  }

  /** Collapses every `""` back to `"`. */
  function UnescapeQuotes(s: string): string
  {
    if |s| == 0 then ""
    else if |s| >= 2 && s[0] == '"' && s[1] == '"' then "\"" + UnescapeQuotes(s[2..])
    else [s[0]] + UnescapeQuotes(s[1..])
  }

  lemma {:induction false} UnescapeEscape(s: string)
    ensures UnescapeQuotes(EscapeQuotes(s)) == s
  {
    if |s| > 0 {
      UnescapeEscape(s[1..]);
      var e := EscapeQuotes(s);
      if s[0] == '"' {
        assert e[2..] == EscapeQuotes(s[1..]);
      } else {
        assert e[1..] == EscapeQuotes(s[1..]);
      }
      assert [s[0]] + s[1..] == s;
    }
  }

  /** Escaping touches only quotes: any other character occurs in the result
      exactly when it occurs in the input. */
  lemma {:induction false} EscapeKeepsOthers(s: string, c: char)
    requires c != '"'
    ensures c in EscapeQuotes(s) <==> c in s
  {
    if |s| > 0 {
      EscapeKeepsOthers(s[1..], c);
      var head := if s[0] == '"' then "\"\"" else [s[0]];
      assert EscapeQuotes(s) == head + EscapeQuotes(s[1..]);
      assert c in s <==> c == s[0] || c in s[1..];
    }
  }

  lemma {:induction false} EscapeWithoutQuotes(s: string)
    requires '"' !in s
    ensures EscapeQuotes(s) == s
  {
    if |s| > 0 {
      EscapeWithoutQuotes(s[1..]);
      assert [s[0]] + s[1..] == s;
    }
  }

  /** Reading past one escaped character: a doubled quote or a plain character. */
  lemma ReadQuotedStep(c: char, tail: string)
    ensures ReadQuoted((if c == '"' then "\"\"" else [c]) + tail) == Prepend(c, ReadQuoted(tail))
  {
    var x := (if c == '"' then "\"\"" else [c]) + tail;
    if c == '"' {
      assert x[0] == '"' && x[1] == '"' && x[2..] == tail;
    } else {
      assert x[0] == c && x[1..] == tail;
    }
  }

  /** An escaped value followed by a closing quote reads back as the value. */
  lemma {:induction false} ReadEscaped(v: string, rest: string)
    requires rest == "" || rest[0] != '"'
    ensures ReadQuoted(EscapeQuotes(v) + "\"" + rest) == Some((v, rest))
  {
    var x := EscapeQuotes(v) + "\"" + rest;
    if |v| == 0 {
      assert x == ['"'] + rest;
      assert x[0] == '"' && x[1..] == rest;
    } else {
      var head := if v[0] == '"' then "\"\"" else [v[0]];
      var tail := EscapeQuotes(v[1..]) + "\"" + rest;
      assert x == head + tail;
      ReadEscaped(v[1..], rest);
      ReadQuotedStep(v[0], tail);
      assert [v[0]] + v[1..] == v;
    }
  }

  lemma ReadQuotedField(v: string, rest: string)
    requires rest == "" || rest[0] != '"'
    ensures ReadField("\"" + EscapeQuotes(v) + "\"" + rest) == Some((v, rest))
  {
    var body := EscapeQuotes(v) + "\"" + rest;
    var x := "\"" + EscapeQuotes(v) + "\"" + rest;
    assert x == ['"'] + body;
    assert x[0] == '"' && x[1..] == body;
    ReadEscaped(v, rest);
    assert ReadField(x) == ReadQuoted(body);
  }

  /** Quoted fields joined by commas read back as the values. */
  lemma {:induction false} ReadQuotedFields(vs: seq<string>)
    requires |vs| > 0
    ensures ReadFields(Join(QuotedAll(vs), ",")) == Some(vs)
  {
    var q := "\"" + EscapeQuotes(vs[0]) + "\"";
    if |vs| == 1 {
      ReadQuotedField(vs[0], "");
      assert q + "" == q;
      assert Join(QuotedAll(vs), ",") == q;
      assert ReadField(q) == Some((vs[0], ""));
      assert vs == [vs[0]];
    } else {
      var rest := "," + Join(QuotedAll(vs[1..]), ",");
      assert QuotedAll(vs)[1..] == QuotedAll(vs[1..]);
      assert Join(QuotedAll(vs), ",") == q + rest;
      ReadQuotedField(vs[0], rest);
      ReadQuotedFields(vs[1..]);
      assert rest[1..] == Join(QuotedAll(vs[1..]), ",");
      assert [vs[0]] + vs[1..] == vs;
    }
  }

  /** Each value between quotes, with its quotes doubled. */
  function QuotedAll(vs: seq<string>): (r: seq<string>)
    ensures |r| == |vs|
    ensures forall i :: 0 <= i < |vs| ==> r[i] == "\"" + EscapeQuotes(vs[i]) + "\""
  {
    seq(|vs|, i requires 0 <= i < |vs| => "\"" + EscapeQuotes(vs[i]) + "\"")
  }

  function Quoted(x: string): string
  {
    "\"" + x + "\""
  }

  lemma JoinThree(q: seq<string>, sep: string)
    requires |q| == 3
    ensures Join(q, sep) == q[0] + sep + q[1] + sep + q[2]
  {
    assert q[1..][1..] == [q[2]];
    assert Join(q[1..][1..], sep) == q[2];
    assert Join(q[1..], sep) == q[1] + sep + q[2];
    assert Join(q, sep) == q[0] + sep + (q[1] + sep + q[2]);
  }

  lemma JoinTwo(q: seq<string>, sep: string)
    requires |q| == 2
    ensures Join(q, sep) == q[0] + sep + q[1]
  {
    assert q[1..] == [q[1]];
    assert Join(q[1..], sep) == q[1];
  }

  lemma RowAsFields(n: string, e: string, t: string)
    ensures "\"" + n + "\",\"" + e + "\",\"" + t + "\"" == Quoted(n) + "," + Quoted(e) + "," + Quoted(t)
  {
    assert "\",\"" == "\"" + "," + "\"";
  }

  const Header := "name,email,subscribedAt"

  /** One export line: the name escaped, the email and date as they are. */
  function Row(s: Subscriber): string
  {
    "\"" + EscapeQuotes(s.name) + "\",\"" + s.email + "\",\"" + s.subscribedAt + "\""
  }

  function Rows(subs: seq<Subscriber>): (r: seq<string>)
    ensures |r| == |subs| && forall i :: 0 <= i < |subs| ==> r[i] == Row(subs[i])
  {
    seq(|subs|, i requires 0 <= i < |subs| => Row(subs[i]))
  }

  /** handleDownloadCsv's text; an empty list yields no file. */
  function Csv(subs: seq<Subscriber>): (r: Option<string>)
    ensures r.None? <==> |subs| == 0
    ensures r.Some? ==> |r.value| > |Header| && r.value[..|Header| + 1] == Header + "\n"
  {
    if |subs| == 0 then None
    else
      var text := Header + "\n" + Join(Rows(subs), "\n");
      assert text[..|Header| + 1] == Header + "\n";
      Some(text)
  }

  predicate OneLine(s: Subscriber)
  {
    '\n' !in s.name && '\n' !in s.email && '\n' !in s.subscribedAt
  }

  /** Split at its newlines, the file is the header line and then one line per
      subscriber, in list order, with no trailing empty line. */
  lemma CsvLines(subs: seq<Subscriber>)
    requires |subs| > 0
    requires forall i :: 0 <= i < |subs| ==> OneLine(subs[i])
    ensures Split(Csv(subs).value, '\n') == [Header] + Rows(subs)
  {
    var lines := [Header] + Rows(subs);
    forall i | 0 <= i < |lines| ensures '\n' !in lines[i] {
      if i > 0 {
        var s := subs[i - 1];
        EscapeKeepsOthers(s.name, '\n');
        assert lines[i] == "\"" + EscapeQuotes(s.name) + "\",\"" + s.email + "\",\"" + s.subscribedAt + "\"";
      }
    }
    assert lines[1..] == Rows(subs);
    assert Join(lines, "\n") == Header + "\n" + Join(Rows(subs), "\n");
    SplitJoin(lines, '\n');
  }

  /** A line reads back as the subscriber it was written from, the name
      un-doubled, provided the two unescaped fields hold no quote. */
  lemma RowReadsBack(s: Subscriber)
    requires '"' !in s.email && '"' !in s.subscribedAt
    ensures ReadFields(Row(s)) == Some([s.name, s.email, s.subscribedAt])
  {
    var vs := [s.name, s.email, s.subscribedAt];
    EscapeWithoutQuotes(s.email);
    EscapeWithoutQuotes(s.subscribedAt);
    var q := QuotedAll(vs);
    assert q == [Quoted(EscapeQuotes(s.name)), Quoted(s.email), Quoted(s.subscribedAt)];
    JoinThree(q, ",");
    RowAsFields(EscapeQuotes(s.name), s.email, s.subscribedAt);
    ReadQuotedFields(vs);
  }
}
