/** `won::backlog`: the in-memory log. Entries are kept in posting order;
    a post below the threshold is dropped. The debug-output and log-file
    writes are side effects outside the model, except that `Post` reports
    the text an error post writes to the log file. */
module Backlog {
  import Common

  datatype LogLevel = None | Default | Warning | Error

  /** The enumerator's position, which is what `>` compares. */
  function Rank(l: LogLevel): (n: nat)
    ensures n < 4
  {
    match l
    case None => 0
    case Default => 1
    case Warning => 2
    case Error => 3
  }

  datatype LogEntry = LogEntry(text: string, level: LogLevel)

  datatype Backlog = Backlog(enabled: bool, threshold: LogLevel, entries: seq<LogEntry>)

  /** The statics at start-up: disabled, threshold `Default`, no entries. */
  const Initial: Backlog := Backlog(false, Default, [])

  /** `GetPrefix`: a tag for warnings and errors, nothing otherwise. */
  function Prefix(l: LogLevel): (p: string)
    ensures l == Warning ==> p == "[Warning] "
    ensures l == Error ==> p == "[Error] "
    ensures l != Warning && l != Error ==> p == ""
  {
    match l
    case Warning => "[Warning] "
    case Error => "[Error] "
    case _ => ""
  }

  /** The line a post stores: prefix, message, newline. */
  function Line(l: LogLevel, input: string): (r: string)
    ensures |r| == |Prefix(l)| + |input| + 1
    ensures r[..|Prefix(l)|] == Prefix(l) && r[|Prefix(l)|..|r| - 1] == input && r[|r| - 1] == '\n'
  {
    Prefix(l) + input + "\n"
  }

  /** Whether a post at `l` is kept under the threshold `t`. */
  predicate Passes(t: LogLevel, l: LogLevel) {
    Rank(t) <= Rank(l)
  }

  /** `Post(const char*, level)`: drop it when the threshold is above the
      level; otherwise append the formatted line, and for an error answer
      the whole log text, which is what gets written to the log file. */
  function Post(b: Backlog, input: string, l: LogLevel): (r: (Backlog, Common.Option<string>))
    ensures !Passes(b.threshold, l) ==> r == (b, Common.None)
    ensures Passes(b.threshold, l) ==>
      r.0 == b.(entries := b.entries + [LogEntry(Line(l, input), l)])
    ensures r.1 != Common.None <==> Passes(b.threshold, l) && l == Error
    ensures r.1 != Common.None ==> r.1.value == GetText(r.0)
  {
    if !Passes(b.threshold, l) then (b, Common.None)
    else
      var b' := b.(entries := b.entries + [LogEntry(Line(l, input), l)]);
      (b', if l == Error then Common.Some(GetText(b')) else Common.None)
  }

  /** A C string ends at its first NUL. */
  function CString(s: string): (r: string)
    ensures '\0' !in r
    ensures |r| <= |s| && r == s[..|r|]
    ensures |r| < |s| ==> s[|r|] == '\0'
  {
    if |s| == 0 || s[0] == '\0' then "" else [s[0]] + CString(s[1..])
  }

  /** `Post(const String&, level)`: passes `c_str()` on, so the message is
      cut at the first NUL. */
  function PostString(b: Backlog, input: string, l: LogLevel): (r: (Backlog, Common.Option<string>))
    ensures '\0' !in input ==> r == Post(b, input, l)
    ensures Passes(b.threshold, l) ==>
      |r.0.entries| == |b.entries| + 1 && r.0.entries[|b.entries|].text == Prefix(l) + CString(input) + "\n"
  {
    CStringNoNul(input);
    Post(b, CString(input), l)
  }

  lemma {:induction false} CStringNoNul(s: string)
    ensures '\0' !in s ==> CString(s) == s
    decreases |s|
  {
    if |s| > 0 && '\0' !in s {
      assert s[0] != '\0' && '\0' !in s[1..];
      CStringNoNul(s[1..]);
      assert s == [s[0]] + s[1..];
    }
  }

  /** The entries' texts joined. */
  function Join(es: seq<LogEntry>): string
  {
    if |es| == 0 then "" else Join(es[..|es| - 1]) + es[|es| - 1].text
  }

  /** `GetText`: every entry's text, oldest first. */
  function GetText(b: Backlog): (r: string)
  {
    Join(b.entries)
  }

  /** Appending an entry appends its text to the joined text. */
  lemma JoinAppend(es: seq<LogEntry>, e: LogEntry)
    ensures Join(es + [e]) == Join(es) + e.text
  {
    assert (es + [e])[..|es|] == es;
  }

  /** Joining two runs of entries is joining each and concatenating. */
  lemma {:induction false} JoinConcat(a: seq<LogEntry>, b: seq<LogEntry>)
    ensures Join(a + b) == Join(a) + Join(b)
    decreases |b|
  {
    if |b| > 0 {
      var b' := b[..|b| - 1];
      var e := b[|b| - 1];
      assert a + b == (a + b') + [e];
      assert b == b' + [e];
      JoinAppend(a + b', e);
      JoinAppend(b', e);
      JoinConcat(a, b');
    } else {
      assert a + b == a;
    }
  }

  /** The text of entry `k` sits in the log text right after the texts of
      the entries before it. */
  lemma JoinHasEntry(es: seq<LogEntry>, k: nat)
    requires k < |es|
    ensures var lo := |Join(es[..k])|;
      lo + |es[k].text| <= |Join(es)| && Join(es)[lo..lo + |es[k].text|] == es[k].text
  {
    assert es == es[..k] + ([es[k]] + es[k + 1..]);
    JoinConcat(es[..k], [es[k]] + es[k + 1..]);
    JoinConcat([es[k]], es[k + 1..]);
    JoinAppend([], es[k]);
    assert [] + [es[k]] == [es[k]];
  }

  /** One post adds its line to the log text when it passes the threshold,
      and nothing otherwise. */
  lemma PostText(b: Backlog, input: string, l: LogLevel)
    ensures GetText(Post(b, input, l).0)
      == GetText(b) + (if Passes(b.threshold, l) then Line(l, input) else "")
  {
    if Passes(b.threshold, l) {
      JoinAppend(b.entries, LogEntry(Line(l, input), l));
    }
  }

  /** `Clear`: no entries; the threshold stays. */
  function Clear(b: Backlog): (r: Backlog)
    ensures GetText(r) == "" && |r.entries| == 0
    ensures r.threshold == b.threshold && r.enabled == b.enabled
  {
    b.(entries := [])
  }

  /** `SetLogLevel`: only the threshold changes, so only later posts are
      affected. */
  function SetLogLevel(b: Backlog, l: LogLevel): (r: Backlog)
    ensures r.threshold == l && r.entries == b.entries && GetText(r) == GetText(b)
  {
    b.(threshold := l)
  }

  function SetEnabled(b: Backlog, value: bool): (r: Backlog)
    ensures r.enabled == value && r.entries == b.entries && r.threshold == b.threshold
  {
    b.(enabled := value)
  }

  /** With the default threshold, a post at level `None` is dropped and
      anything else is kept. */
  lemma DefaultThreshold(input: string, l: LogLevel)
    ensures Post(Initial, input, l).0 == Initial <==> l == None
  {
    if l != None {
      assert |Post(Initial, input, l).0.entries| == 1;
    }
  }

  /** The lines of the posts that pass `t`, in order. */
  function KeptLines(t: LogLevel, posts: seq<(string, LogLevel)>): string
  {
    if |posts| == 0 then ""
    else
      var (input, l) := posts[|posts| - 1];
      KeptLines(t, posts[..|posts| - 1]) + (if Passes(t, l) then Line(l, input) else "")
  }

  /** The entry one post stores under the threshold `t`, if any. */
  function KeptEntry(t: LogLevel, post: (string, LogLevel)): seq<LogEntry>
  {
    if Passes(t, post.1) then [LogEntry(Line(post.1, post.0), post.1)] else []
  }

  /** The entries the posts that pass `t` store, first post first. */
  function KeptEntries(t: LogLevel, posts: seq<(string, LogLevel)>): seq<LogEntry>
  {
    Common.FlatMap(post => KeptEntry(t, post), posts)
  }

  /** Posting one message after another: the flags stay, the earlier entries
      stay in front, and exactly the posts that pass the threshold are
      appended, in posting order. */
  function PostAll(b: Backlog, posts: seq<(string, LogLevel)>): (r: Backlog)
    ensures r.threshold == b.threshold && r.enabled == b.enabled
    ensures r.entries == b.entries + KeptEntries(b.threshold, posts)
    decreases |posts|
  {
    if |posts| == 0 then b
    else
      var (input, l) := posts[|posts| - 1];
      Common.FlatMapLast(post => KeptEntry(b.threshold, post), posts);
      Post(PostAll(b, posts[..|posts| - 1]), input, l).0
  }

  /** The log text grows by exactly the lines of the posts that pass the
      threshold, in posting order. */
  lemma {:induction false} PostAllText(b: Backlog, posts: seq<(string, LogLevel)>)
    ensures GetText(PostAll(b, posts)) == GetText(b) + KeptLines(b.threshold, posts)
    decreases |posts|
  {
    if |posts| > 0 {
      var prefix := posts[..|posts| - 1];
      var (input, l) := posts[|posts| - 1];
      var mid := PostAll(b, prefix);
      PostAllText(b, prefix);
      if Passes(b.threshold, l) {
        var es := mid.entries + [LogEntry(Line(l, input), l)];
        assert es[..|es| - 1] == mid.entries;
      }
    }
  }
}
