/**
 * The queries of helper.py over the table that preprocess builds. Each takes the selected
 * user (or "Overall") and the table's rows; none changes its input. The URL finder and the
 * emoji test are library calls and come in as function parameters; the stop-word file comes
 * in as its text, or as NoFile when the file is absent.
 */
module Helper {
  import opened Wrappers
  import opened Text
  import opened Tally
  import opened Calendar
  import opened Stamp
  import opened Preprocessor

  // ---------------------------------------------------------------- selection

  /** The choice in the user menu that keeps every row. */
  const Overall: string := "Overall"

  /** The exact body WhatsApp writes for an attachment left out of the export. */
  const MediaLine: string := "<Media omitted>\n"

  /** The marker the media count looks for in lower-cased bodies. */
  const MediaMarker: string := "media omitted"

  function Users(rows: seq<Row>): (us: seq<string>)
    ensures |us| == |rows| && forall k :: 0 <= k < |rows| ==> us[k] == rows[k].user
  {
    seq(|rows|, k requires 0 <= k < |rows| => rows[k].user)
  }

  function Messages(rows: seq<Row>): (ms: seq<string>)
    ensures |ms| == |rows| && forall k :: 0 <= k < |rows| ==> ms[k] == rows[k].message
  {
    seq(|rows|, k requires 0 <= k < |rows| => rows[k].message)
  }

  /** `df[df["user"] == user]`: the rows sent by user, in table order. */
  function ByUser(rows: seq<Row>, user: string): (df: seq<Row>)
    ensures forall r :: r in df <==> r in rows && r.user == user
    ensures |df| == Occ(Users(rows), user)
    ensures |rows| == 1 ==> df == if rows[0].user == user then rows else []
  {
    if rows == [] then []
    else
      var init := rows[..|rows| - 1];
      var last := rows[|rows| - 1];
      assert rows == init + [last];
      assert Users(rows) == Users(init) + [last.user];
      OccAppend(Users(init), last.user, user);
      ByUser(init, user) + if last.user == user then [last] else []
  }

  /** The rows a query works on: all of them for "Overall", else those of the user. */
  function Select(selected: string, rows: seq<Row>): (df: seq<Row>)
    ensures selected == Overall ==> df == rows
    ensures selected != Overall ==> forall r :: r in df <==> r in rows && r.user == selected
    ensures selected != Overall ==> |df| == Occ(Users(rows), selected)
  {
    if selected == Overall then rows else ByUser(rows, selected)
  }

  /** The filter works row by row: the rows of a table cut in two are the rows of the first
      part followed by those of the second. With the one-row case of ByUser this fixes the
      result: each matching row once, in table order. */
  lemma {:induction false} ByUserAppend(a: seq<Row>, b: seq<Row>, user: string)
    ensures ByUser(a + b, user) == ByUser(a, user) + ByUser(b, user)
    decreases |b|
  {
    if b == [] {
      assert a + b == a;
    } else {
      var init, last := b[..|b| - 1], b[|b| - 1];
      var tail := if last.user == user then [last] else [];
      assert (a + b)[..|a + b| - 1] == a + init;
      assert (a + b)[|a + b| - 1] == last;
      assert ByUser(a + b, user) == ByUser(a + init, user) + tail;
      assert ByUser(b, user) == ByUser(init, user) + tail;
      ByUserAppend(a, init, user);
      Regroup(ByUser(a, user), ByUser(init, user), tail);
    }
  }

  lemma Regroup(x: seq<Row>, y: seq<Row>, z: seq<Row>)
    ensures x + y + z == x + (y + z)
  {
  }

  /** Selecting works row by row in the same way, for "Overall" and for a user alike. */
  lemma SelectAppend(selected: string, a: seq<Row>, b: seq<Row>)
    ensures Select(selected, a + b) == Select(selected, a) + Select(selected, b)
    ensures |a| == 1 ==> Select(selected, a) == if selected == Overall || a[0].user == selected then a else []
  {
    if selected != Overall {
      ByUserAppend(a, b, selected);
    }
  }

  // ---------------------------------------------------------------- fetch_stats

  /** The whitespace tokens of every body, body after body. */
  function AllWords(ms: seq<string>): seq<string>
  {
    if ms == [] then [] else AllWords(ms[..|ms| - 1]) + Words(ms[|ms| - 1])
  }

  /** The links the URL finder reports in every body, body after body. */
  function AllLinks(ms: seq<string>, findUrls: string -> seq<string>): seq<string>
  {
    if ms == [] then [] else AllLinks(ms[..|ms| - 1], findUrls) + findUrls(ms[|ms| - 1])
  }

  /** Whether a body counts as media: its lower-cased text contains "media omitted". */
  predicate IsMedia(m: string) {
    Contains(Lower(m), MediaMarker)
  }

  /** The number of media bodies. */
  function MediaCount(ms: seq<string>): (n: nat)
    ensures n <= |ms|
    ensures n == 0 <==> forall k :: 0 <= k < |ms| ==> !IsMedia(ms[k])
  {
    if ms == [] then 0
    else
      var init := ms[..|ms| - 1];
      assert forall k :: 0 <= k < |init| ==> init[k] == ms[k];
      MediaCount(init) + if IsMedia(ms[|ms| - 1]) then 1 else 0
  }

  /** The words counted body by body are the words of all bodies joined by spaces. */
  lemma {:induction false} AllWordsOfJoin(ms: seq<string>)
    ensures AllWords(ms) == Words(Join(" ", ms))
    decreases |ms|
  {
    WordsOfJoin(ms);
    AllWordsFlatten(ms);
  }

  lemma {:induction false} AllWordsFlatten(ms: seq<string>)
    ensures AllWords(ms) == Flatten(seq(|ms|, i requires 0 <= i < |ms| => Words(ms[i])))
    decreases |ms|
  {
    if ms != [] {
      var init := ms[..|ms| - 1];
      var f := seq(|ms|, i requires 0 <= i < |ms| => Words(ms[i]));
      var g := seq(|init|, i requires 0 <= i < |init| => Words(init[i]));
      AllWordsFlatten(init);
      assert f == g + [Words(ms[|ms| - 1])];
      FlattenAppend(g, [Words(ms[|ms| - 1])]);
      assert Flatten([Words(ms[|ms| - 1])]) == Words(ms[|ms| - 1]) + Flatten([]);
    }
  }

  /**
   * `fetch_stats`: the number of selected rows, of whitespace tokens in their bodies, of
   * bodies that mention "media omitted", and of links the URL finder reports.
   */
  method FetchStats(selected: string, rows: seq<Row>, findUrls: string -> seq<string>)
    returns (messages: nat, words: nat, media: nat, links: nat)
    ensures messages == |Select(selected, rows)|
    ensures selected != Overall ==> messages == Occ(Users(rows), selected)
    ensures words == |AllWords(Messages(Select(selected, rows)))|
    ensures words == |Words(Join(" ", Messages(Select(selected, rows))))|
    ensures media == MediaCount(Messages(Select(selected, rows))) && media <= messages
    ensures links == |AllLinks(Messages(Select(selected, rows)), findUrls)|
  {
    var df := Select(selected, rows);
    var ms := Messages(df);
    messages := |df|;
    var wordList := CollectWordList(ms);
    media := MediaCount(ms);
    var linkList := CollectLinks(ms, findUrls);
    words, links := |wordList|, |linkList|;
    AllWordsOfJoin(ms);
  }

  /** The loop of fetch_stats that extends `words` with each message's tokens. */
  method CollectWordList(ms: seq<string>) returns (wordList: seq<string>)
    ensures wordList == AllWords(ms)
  {
    wordList := [];
    for i := 0 to |ms|
      invariant wordList == AllWords(ms[..i])
    {
      assert ms[..i + 1][..i] == ms[..i];
      wordList := wordList + Words(ms[i]);
    }
    assert ms[..|ms|] == ms;
  }

  /** The loop of fetch_stats that extends `links` with the URLs found in each message. */
  method CollectLinks(ms: seq<string>, findUrls: string -> seq<string>) returns (linkList: seq<string>)
    ensures linkList == AllLinks(ms, findUrls)
  {
    linkList := [];
    for i := 0 to |ms|
      invariant linkList == AllLinks(ms[..i], findUrls)
    {
      assert ms[..i + 1][..i] == ms[..i];
      linkList := linkList + findUrls(ms[i]);
    }
    assert ms[..|ms|] == ms;
  }

  // ---------------------------------------------------------------- most_busy_users

  /** A row of the percent table: a sender and the share of messages sent, in percent. */
  datatype Share = Share(name: string, percent: real)

  /** `value_counts().head(n)`: the n senders with most messages, most first. */
  function Top<K(==,!new)>(xs: seq<K>, n: nat): (top: seq<(K, nat)>)
    ensures |top| <= n && |top| <= |Ranked(xs)| && top == Ranked(xs)[..|top|]
    ensures |top| == n || |top| == |Ranked(xs)|
  {
    var r := Ranked(xs);
    if n <= |r| then r[..n] else r
  }

  /** The head of a ranking: at most n entries, most first, each element of xs with its
      exact count; empty only when xs is. */
  lemma TopOfRanking<K(!new)>(xs: seq<K>, n: nat)
    ensures var top := Top(xs, n);
      |top| <= n && NonIncreasing(top) && Distinct(KeysOf(top))
      && (forall i :: 0 <= i < |top| ==> top[i].1 == Occ(xs, top[i].0) && top[i].0 in xs)
      && (n > 0 ==> (top == [] <==> xs == []))
  {
    var r := Ranked(xs);
    PrefixOfTally(r, xs, |Top(xs, n)|);
    if xs != [] {
      assert xs[0] in KeysOf(r);
    }
  }

  /** The denominator of the shares: the rows that are not group notices, or every row when
      there are only group notices. */
  function Denominator(rows: seq<Row>): (d: nat)
    ensures d == 0 <==> rows == []
    ensures d <= |rows|
  {
    var others := |rows| - Occ(Users(rows), GroupNotice);
    if others == 0 then |rows| else others
  }

  /** Each tallied sender's count as a percentage of d. */
  function Shares(ps: seq<(string, nat)>, d: nat): (sh: seq<Share>)
    requires d > 0
    ensures |sh| == |ps|
  {
    seq(|ps|, i requires 0 <= i < |ps| => Share(ps[i].0, (ps[i].1 as real) * 100.0 / (d as real)))
  }

  /** Share i names the i-th sender of the tally and is its count as a percentage of d. */
  lemma SharesExact(ps: seq<(string, nat)>, d: nat, i: nat)
    requires d > 0 && i < |ps|
    ensures Shares(ps, d)[i].name == ps[i].0
    ensures Shares(ps, d)[i].percent * (d as real) == (ps[i].1 as real) * 100.0
  {
  }

  function SumPercent(sh: seq<Share>): real
  {
    if sh == [] then 0.0 else sh[0].percent + SumPercent(sh[1..])
  }

  /**
   * `most_busy_users`: the five busiest senders with their message counts, and every
   * sender (group notices included) with its share of the non-notice messages.
   */
  function MostBusyUsers(rows: seq<Row>): (r: (seq<(string, nat)>, seq<Share>))
    ensures r.0 == Top(Users(rows), 5)
    ensures rows == [] ==> r.1 == []
    ensures rows != [] ==> r.1 == Shares(Ranked(Users(rows)), Denominator(rows))
  {
    var top := Top(Users(rows), 5);
    var d := Denominator(rows);
    if d == 0 then (top, []) else (top, Shares(Ranked(Users(rows)), d))
  }

  /** The head of the ranking: at most five senders, most first, each with its exact count,
      and no sender left out has more messages than one kept. */
  lemma BusiestUsers(rows: seq<Row>, x: string)
    ensures var top := MostBusyUsers(rows).0;
      |top| <= 5 && NonIncreasing(top) && Distinct(KeysOf(top))
      && (forall i :: 0 <= i < |top| ==> top[i].1 == Occ(Users(rows), top[i].0) && top[i].0 in Users(rows))
      && (x in Users(rows) && x !in KeysOf(top) ==> forall i :: 0 <= i < |top| ==> top[i].1 >= Occ(Users(rows), x))
  {
    var us := Users(rows);
    TopOfRanking(us, 5);
    if x in us && x !in KeysOf(Top(us, 5)) {
      TopIsTop(us, 5, x);
    }
  }

  lemma {:induction false} SumOfShares(ps: seq<(string, nat)>, d: nat)
    requires d > 0
    ensures SumPercent(Shares(ps, d)) * (d as real) == (Total(ps) as real) * 100.0
    decreases |ps|
  {
    if ps != [] {
      var sh := Shares(ps, d);
      assert sh[1..] == Shares(ps[1..], d);
      SumOfShares(ps[1..], d);
      SharesExact(ps, d, 0);
      calc {
        SumPercent(sh) * (d as real);
        (sh[0].percent + SumPercent(sh[1..])) * (d as real);
        sh[0].percent * (d as real) + SumPercent(sh[1..]) * (d as real);
      }
    }
  }

  /**
   * The shares add up to 100 times the rows over the denominator: exactly 100 when no row
   * is a group notice (or every row is), and more than 100 when both kinds are present,
   * since the notices are listed but left out of the denominator.
   */
  lemma ShareTotal(rows: seq<Row>)
    requires rows != []
    ensures PercentOfAll(MostBusyUsers(rows).1, Denominator(rows), |rows|)
    ensures var n := Occ(Users(rows), GroupNotice);
      (n == 0 || n == |rows| ==> SumPercent(MostBusyUsers(rows).1) == 100.0)
      && (0 < n < |rows| ==> SumPercent(MostBusyUsers(rows).1) > 100.0)
  {
    var ranked := Ranked(Users(rows));
    var d := Denominator(rows);
    assert Total(ranked) == |rows|;
    assert MostBusyUsers(rows).1 == Shares(ranked, d);
    SharesSum(ranked, d, |rows|);
  }

  /** The shares, taken as percentages of d, add up to all n rows. */
  predicate PercentOfAll(sh: seq<Share>, d: nat, n: nat) {
    SumPercent(sh) * (d as real) == (n as real) * 100.0
  }

  /** The shares of a tally of n items over a denominator d <= n sum to 100 times n / d. */
  lemma SharesSum(ps: seq<(string, nat)>, d: nat, n: nat)
    requires 0 < d <= n && Total(ps) == n
    ensures PercentOfAll(Shares(ps, d), d, n)
    ensures d == n ==> SumPercent(Shares(ps, d)) == 100.0
    ensures d < n ==> SumPercent(Shares(ps, d)) > 100.0
  {
    SumOfShares(ps, d);
    Scale(SumPercent(Shares(ps, d)), d as real, n as real);
  }

  /** s percent of d being all of n is 100 percent when d is n, and more when d < n. */
  lemma Scale(s: real, d: real, n: real)
    requires 0.0 < d <= n && s * d == n * 100.0
    ensures d == n ==> s == 100.0
    ensures d < n ==> s > 100.0
  {
    assert (s - 100.0) * d == (n - d) * 100.0;
  }



  // ---------------------------------------------------------------- stop words

  /** The stop-word file: its whole text, or NoFile when it cannot be opened. */
  datatype StopList = NoFile | FileText(text: string)

  /** `word not in stop_words` fails: with the file read as one string, a word is dropped
      when it occurs anywhere in that text; without the file nothing is dropped. */
  predicate Stopped(w: string, sw: StopList) {
    match sw
    case NoFile => false
    case FileText(t) => Contains(t, w)
  }

  /** The words of ws that are not stop words, in order. */
  function Unstopped(ws: seq<string>, sw: StopList): seq<string>
  {
    if ws == [] then []
    else Unstopped(ws[..|ws| - 1], sw) + if Stopped(ws[|ws| - 1], sw) then [] else [ws[|ws| - 1]]
  }

  /** Unstopped keeps exactly the words that are not stop words. */
  lemma {:induction false} UnstoppedMembers(ws: seq<string>, sw: StopList)
    ensures forall i :: 0 <= i < |Unstopped(ws, sw)| ==> Unstopped(ws, sw)[i] in ws && !Stopped(Unstopped(ws, sw)[i], sw)
    ensures forall w :: w in ws && !Stopped(w, sw) ==> w in Unstopped(ws, sw)
    decreases |ws|
  {
    if ws != [] {
      var init := ws[..|ws| - 1];
      UnstoppedMembers(init, sw);
      assert ws == init + [ws[|ws| - 1]];
      var r := Unstopped(ws, sw);
      var p := Unstopped(init, sw);
      forall i | 0 <= i < |r| ensures r[i] in ws && !Stopped(r[i], sw) {
        if i < |p| {
          assert r[i] == p[i];
        }
      }
    }
  }

  /** The words a body contributes: its lower-cased tokens that are not stop words. */
  function KeptWords(m: string, sw: StopList): seq<string>
  {
    Unstopped(Words(Lower(m)), sw)
  }

  /** A body keeps exactly those of its lower-cased tokens that are not stop words. */
  lemma KeptWordsMembers(m: string, sw: StopList)
    ensures forall w :: w in KeptWords(m, sw) <==> w in Words(Lower(m)) && !Stopped(w, sw)
    ensures forall i :: 0 <= i < |KeptWords(m, sw)| ==> IsWord(KeptWords(m, sw)[i]) && !Stopped(KeptWords(m, sw)[i], sw)
  {
    UnstoppedMembers(Words(Lower(m)), sw);
  }

  /** The kept words of every body, body after body. */
  function Corpus(ms: seq<string>, sw: StopList): seq<string>
  {
    if ms == [] then [] else Corpus(ms[..|ms| - 1], sw) + KeptWords(ms[|ms| - 1], sw)
  }

  /** Every word of the corpus is a whitespace-free token and not a stop word. */
  lemma {:induction false} CorpusWords(ms: seq<string>, sw: StopList)
    ensures forall i :: 0 <= i < |Corpus(ms, sw)| ==> IsWord(Corpus(ms, sw)[i]) && !Stopped(Corpus(ms, sw)[i], sw)
    decreases |ms|
  {
    if ms != [] {
      var init := Corpus(ms[..|ms| - 1], sw);
      var last := KeptWords(ms[|ms| - 1], sw);
      CorpusWords(ms[..|ms| - 1], sw);
      KeptWordsMembers(ms[|ms| - 1], sw);
      var ws := init + last;
      forall i | 0 <= i < |ws| ensures IsWord(ws[i]) && !Stopped(ws[i], sw) {
        if i >= |init| {
          assert ws[i] == last[i - |init|];
        }
      }
    }
  }

  /** The rows the word queries read: no group notices and no bare media lines. */
  function TextRows(rows: seq<Row>): (t: seq<Row>)
    ensures forall r :: r in t <==> r in rows && r.user != GroupNotice && r.message != MediaLine
    ensures |t| <= |rows|
    ensures |rows| == 1 ==> t == if rows[0].user != GroupNotice && rows[0].message != MediaLine then rows else []
  {
    if rows == [] then []
    else
      var init := rows[..|rows| - 1];
      var last := rows[|rows| - 1];
      assert rows == init + [last];
      TextRows(init) + if last.user != GroupNotice && last.message != MediaLine then [last] else []
  }

  /** The two filters work row by row; with the one-row case this makes TextRows the
      in-order filter of the table. */
  lemma {:induction false} TextRowsAppend(a: seq<Row>, b: seq<Row>)
    ensures TextRows(a + b) == TextRows(a) + TextRows(b)
    decreases |b|
  {
    if b == [] {
      assert a + b == a;
    } else {
      var init, last := b[..|b| - 1], b[|b| - 1];
      var tail := if last.user != GroupNotice && last.message != MediaLine then [last] else [];
      assert (a + b)[..|a + b| - 1] == a + init;
      assert (a + b)[|a + b| - 1] == last;
      assert TextRows(a + b) == TextRows(a + init) + tail;
      assert TextRows(b) == TextRows(init) + tail;
      TextRowsAppend(a, init);
      Regroup(TextRows(a), TextRows(init), tail);
    }
  }

  /** The inner loop of the word queries: the kept words of one body. */
  method KeepWords(m: string, sw: StopList) returns (kept: seq<string>)
    ensures kept == KeptWords(m, sw)
  {
    var tokens := Words(Lower(m));
    kept := [];
    for i := 0 to |tokens|
      invariant kept == Unstopped(tokens[..i], sw)
    {
      assert tokens[..i + 1][..i] == tokens[..i];
      if !Stopped(tokens[i], sw) {
        kept := kept + [tokens[i]];
      }
    }
    assert tokens[..|tokens|] == tokens;
  }

  // ---------------------------------------------------------------- most_common_words

  /** The kept words of the bodies ms, collected body by body. */
  method CollectWords(ms: seq<string>, sw: StopList) returns (words: seq<string>)
    ensures words == Corpus(ms, sw)
  {
    words := [];
    for i := 0 to |ms|
      invariant words == Corpus(ms[..i], sw)
    {
      assert ms[..i + 1][..i] == ms[..i];
      var kept := KeepWords(ms[i], sw);
      words := words + kept;
    }
    assert ms[..|ms|] == ms;
  }

  /**
   * `most_common_words`: the twenty most frequent kept words of the selected text rows,
   * most first, with their counts; empty when no word is kept.
   */
  method MostCommonWords(selected: string, rows: seq<Row>, sw: StopList) returns (common: seq<(string, nat)>)
    ensures common == Top(Corpus(Messages(TextRows(Select(selected, rows))), sw), 20)
    ensures common == [] <==> Corpus(Messages(TextRows(Select(selected, rows))), sw) == []
    ensures |common| <= 20 && NonIncreasing(common)
    ensures forall i :: 0 <= i < |common| ==>
      common[i].1 == Occ(Corpus(Messages(TextRows(Select(selected, rows))), sw), common[i].0)
      && !Stopped(common[i].0, sw)
  {
    var words := CollectWords(Messages(TextRows(Select(selected, rows))), sw);
    if words == [] {
      common := [];
    } else {
      common := Top(words, 20);
    }
    TopOfRanking(words, 20);
    CorpusWords(Messages(TextRows(Select(selected, rows))), sw);
  }

  // ---------------------------------------------------------------- create_wordcloud

  /** The message column after `remove_stop_words`: each body replaced by its kept words
      joined with single spaces. */
  function Cleaned(ms: seq<string>, sw: StopList): (cs: seq<string>)
    ensures |cs| == |ms|
  {
    seq(|ms|, k requires 0 <= k < |ms| => Join(" ", KeptWords(ms[k], sw)))
  }

  lemma {:induction false} CorpusFlatten(ms: seq<string>, sw: StopList)
    ensures Corpus(ms, sw) == Flatten(seq(|ms|, k requires 0 <= k < |ms| => KeptWords(ms[k], sw)))
    decreases |ms|
  {
    if ms != [] {
      var init := ms[..|ms| - 1];
      var last := KeptWords(ms[|ms| - 1], sw);
      var f := seq(|ms|, k requires 0 <= k < |ms| => KeptWords(ms[k], sw));
      var g := seq(|init|, k requires 0 <= k < |init| => KeptWords(init[k], sw));
      CorpusFlatten(init, sw);
      assert f == g + [last] by {
        assert forall k :: 0 <= k < |init| ==> init[k] == ms[k];
      }
      FlattenAppend(g, [last]);
      assert Flatten([last]) == last + Flatten([]);
      calc {
        Corpus(ms, sw);
        Corpus(init, sw) + last;
        Flatten(g) + Flatten([last]);
        Flatten(f);
      }
    }
  }

  /** Splitting the word-cloud text gives back exactly the words most_common_words counts. */
  lemma CleanedWords(ms: seq<string>, sw: StopList)
    ensures Words(Join(" ", Cleaned(ms, sw))) == Corpus(ms, sw)
  {
    var cs := Cleaned(ms, sw);
    WordsOfJoin(cs);
    forall k | 0 <= k < |ms| ensures Words(cs[k]) == KeptWords(ms[k], sw) {
      KeptWordsMembers(ms[k], sw);
      SplitJoinRoundTrip(KeptWords(ms[k], sw));
    }
    assert seq(|cs|, i requires 0 <= i < |cs| => Words(cs[i]))
      == seq(|ms|, k requires 0 <= k < |ms| => KeptWords(ms[k], sw));
    CorpusFlatten(ms, sw);
  }

  /**
   * The text `create_wordcloud` hands to the renderer: the cleaned bodies of the selected
   * text rows joined by spaces, or the empty text when nothing is left. Its words are the
   * words most_common_words counts.
   */
  method WordcloudText(selected: string, rows: seq<Row>, sw: StopList) returns (text: string)
    ensures Words(text) == Corpus(Messages(TextRows(Select(selected, rows))), sw)
    ensures text == [] <==> Corpus(Messages(TextRows(Select(selected, rows))), sw) == []
    ensures text != [] ==> text == Join(" ", Cleaned(Messages(TextRows(Select(selected, rows))), sw))
  {
    var temp := TextRows(Select(selected, rows));
    var ms := Messages(temp);
    if temp == [] {
      return [];
    }
    var column := ms;
    for i := 0 to |column|
      invariant |column| == |ms|
      invariant forall k :: 0 <= k < i ==> column[k] == Join(" ", KeptWords(ms[k], sw))
      invariant forall k :: i <= k < |ms| ==> column[k] == ms[k]
    {
      var kept := KeepWords(column[i], sw);
      column := column[i := Join(" ", kept)];
    }
    assert column == Cleaned(ms, sw);
    text := Join(" ", column);
    CleanedWords(ms, sw);
    WordsOfBlank(text);
    if IsBlank(text) {
      text := [];
    }
  }

  // ---------------------------------------------------------------- emoji_helper

  /** `[c for c in message if emoji.is_emoji(c)]`. */
  function EmojiIn(m: string, isEmoji: char -> bool): (es: string)
    ensures forall c :: c in es <==> c in m && isEmoji(c)
    ensures |es| <= |m|
  {
    if m == [] then []
    else
      var init := m[..|m| - 1];
      var c := m[|m| - 1];
      assert m == init + [c];
      EmojiIn(init, isEmoji) + if isEmoji(c) then [c] else []
  }

  /** The emoji of every body, body after body. */
  function AllEmoji(ms: seq<string>, isEmoji: char -> bool): (es: string)
    ensures forall i :: 0 <= i < |es| ==> isEmoji(es[i])
  {
    if ms == [] then []
    else
      var es := AllEmoji(ms[..|ms| - 1], isEmoji) + EmojiIn(ms[|ms| - 1], isEmoji);
      assert forall i :: 0 <= i < |es| ==> es[i] in AllEmoji(ms[..|ms| - 1], isEmoji) || es[i] in EmojiIn(ms[|ms| - 1], isEmoji);
      es
  }

  /**
   * `emoji_helper`: every distinct emoji of the selected bodies with its number of
   * occurrences, most frequent first, none left out; empty when there is no emoji.
   */
  method EmojiHelper(selected: string, rows: seq<Row>, isEmoji: char -> bool) returns (table: seq<(char, nat)>)
    ensures table == Ranked(AllEmoji(Messages(Select(selected, rows)), isEmoji))
    ensures IsTally(table, AllEmoji(Messages(Select(selected, rows)), isEmoji)) && NonIncreasing(table)
    ensures Total(table) == |AllEmoji(Messages(Select(selected, rows)), isEmoji)|
    ensures forall i :: 0 <= i < |table| ==> isEmoji(table[i].0)
    ensures table == [] <==> AllEmoji(Messages(Select(selected, rows)), isEmoji) == []
  {
    var emojis := CollectEmoji(Messages(Select(selected, rows)), isEmoji);
    if emojis == [] {
      table := [];
    } else {
      table := Ranked(emojis);
    }
    EmojiTally(emojis, isEmoji, table);
  }

  /** The emoji of the bodies ms, collected body by body. */
  method CollectEmoji(ms: seq<string>, isEmoji: char -> bool) returns (emojis: string)
    ensures emojis == AllEmoji(ms, isEmoji)
  {
    emojis := [];
    for i := 0 to |ms|
      invariant emojis == AllEmoji(ms[..i], isEmoji)
    {
      assert ms[..i + 1][..i] == ms[..i];
      emojis := emojis + EmojiIn(ms[i], isEmoji);
    }
    assert ms[..|ms|] == ms;
  }

  lemma EmojiTally(emojis: string, isEmoji: char -> bool, table: seq<(char, nat)>)
    requires forall i :: 0 <= i < |emojis| ==> isEmoji(emojis[i])
    requires table == Ranked(emojis)
    ensures table == [] <==> emojis == []
    ensures forall i :: 0 <= i < |table| ==> isEmoji(table[i].0)
  {
    if emojis != [] {
      assert emojis[0] in KeysOf(table);
    }
    forall i | 0 <= i < |table| ensures isEmoji(table[i].0) {
      assert KeysOf(table)[i] in emojis;
    }
  }


  // ---------------------------------------------------------------- monthly_timeline

  /** The group key of `monthly_timeline`. */
  datatype MonthKey = MonthKey(year: nat, monthNum: nat, month: string)

  /** The order groupby sorts the keys in: by year, then month number, then name. */
  predicate MonthBefore(a: MonthKey, b: MonthKey) {
    a.year < b.year
    || (a.year == b.year && a.monthNum < b.monthNum)
    || (a.year == b.year && a.monthNum == b.monthNum && StrLt(a.month, b.month))
  }

  lemma MonthBeforeIsStrictTotalOrder()
    ensures StrictTotalOrder(MonthBefore)
  {
    forall a: MonthKey ensures !MonthBefore(a, a) {
      StrLtIrreflexive(a.month);
    }
    forall a: MonthKey, b: MonthKey, c: MonthKey | MonthBefore(a, b) && MonthBefore(b, c)
      ensures MonthBefore(a, c)
    {
      if a.year == b.year == c.year && a.monthNum == b.monthNum == c.monthNum {
        StrLtTransitive(a.month, b.month, c.month);
      }
    }
    forall a: MonthKey, b: MonthKey ensures a == b || MonthBefore(a, b) || MonthBefore(b, a) {
      StrLtTotal(a.month, b.month);
    }
  }

  function MonthKeys(rows: seq<Row>): (ks: seq<MonthKey>)
    ensures |ks| == |rows| && forall k :: 0 <= k < |rows| ==> ks[k] == MonthKey(rows[k].year, rows[k].monthNum, rows[k].month)
  {
    seq(|rows|, k requires 0 <= k < |rows| => MonthKey(rows[k].year, rows[k].monthNum, rows[k].month))
  }

  /** `groupby(["year", "month_num", "month"]).count()`: one group per month, in order. */
  function MonthGroups(rows: seq<Row>): (ps: seq<(MonthKey, nat)>)
    ensures IsTally(ps, MonthKeys(rows)) && Increasing(KeysOf(ps), MonthBefore)
    ensures Total(ps) == |rows|
  {
    MonthBeforeIsStrictTotalOrder();
    GroupCount(MonthKeys(rows), MonthBefore)
  }

  /** A row of the monthly timeline: the group key, its message count and its label. */
  datatype MonthRow = MonthRow(year: nat, monthNum: nat, month: string, message: nat, time: string)

  /** The label `month + "-" + str(year)`. */
  function MonthLabel(month: string, year: nat): string {
    month + "-" + Decimal(year)
  }

  /** The (key, count) pairs a timeline holds. */
  function Groups(timeline: seq<MonthRow>): (ps: seq<(MonthKey, nat)>)
    ensures |ps| == |timeline|
  {
    seq(|timeline|, i requires 0 <= i < |timeline| =>
      (MonthKey(timeline[i].year, timeline[i].monthNum, timeline[i].month), timeline[i].message))
  }

  /**
   * `monthly_timeline`: one row per month of the selected rows, earliest first, with the
   * number of messages sent in it and its label.
   */
  method MonthlyTimeline(selected: string, rows: seq<Row>) returns (timeline: seq<MonthRow>)
    ensures Groups(timeline) == MonthGroups(Select(selected, rows))
    ensures IsTally(Groups(timeline), MonthKeys(Select(selected, rows)))
    ensures Total(Groups(timeline)) == |Select(selected, rows)|
    ensures forall i, j :: 0 <= i < j < |timeline| ==>
      MonthBefore(Groups(timeline)[i].0, Groups(timeline)[j].0)
    ensures forall i :: 0 <= i < |timeline| ==> timeline[i].time == MonthLabel(timeline[i].month, timeline[i].year)
  {
    var g := MonthGroups(Select(selected, rows));
    var time := MonthLabels(KeysOf(g));
    timeline := seq(|g|, i requires 0 <= i < |g| => MonthRow(g[i].0.year, g[i].0.monthNum, g[i].0.month, g[i].1, time[i]));
    assert Groups(timeline) == g;
    assert forall i :: 0 <= i < |g| ==> KeysOf(g)[i] == g[i].0;
  }

  /** The loop of monthly_timeline that appends `month + "-" + str(year)` for each group. */
  method MonthLabels(keys: seq<MonthKey>) returns (time: seq<string>)
    ensures |time| == |keys|
    ensures forall k :: 0 <= k < |keys| ==> time[k] == MonthLabel(keys[k].month, keys[k].year)
  {
    time := [];
    for i := 0 to |keys|
      invariant |time| == i
      invariant forall k :: 0 <= k < i ==> time[k] == MonthLabel(keys[k].month, keys[k].year)
    {
      time := time + [MonthLabel(keys[i].month, keys[i].year)];
    }
  }

  /** A month name holds no '-'. */
  lemma MonthNameUndashed(m: nat)
    requires 1 <= m <= 12
    ensures forall k :: 0 <= k < |MonthName(m)| ==> MonthName(m)[k] != '-'
  {
  }

  /** The label of a month reads back: the text before its first '-' is the month's name
      and the digits after it are the year. */
  lemma MonthLabelReadsBack(m: nat, year: nat)
    requires 1 <= m <= 12
    ensures var name := MonthLabel(MonthName(m), year);
      DashAt(name) == |MonthName(m)| && name[..DashAt(name)] == MonthName(m)
      && AllDigits(name[DashAt(name) + 1..]) && DigitsValue(name[DashAt(name) + 1..]) == year
  {
    MonthNameUndashed(m);
    DashSplit(MonthName(m), Decimal(year));
    DecimalRoundTrip(year);
  }

  // ---------------------------------------------------------------- daily_timeline

  function Dates(rows: seq<Row>): (ds: seq<Date>)
    ensures |ds| == |rows| && forall k :: 0 <= k < |rows| ==> ds[k] == rows[k].onlyDate
  {
    seq(|rows|, k requires 0 <= k < |rows| => rows[k].onlyDate)
  }

  /** `daily_timeline`: one row per day of the selected rows, earliest first, with the
      number of messages sent that day. */
  function DailyTimeline(selected: string, rows: seq<Row>): (ps: seq<(Date, nat)>)
    ensures IsTally(ps, Dates(Select(selected, rows))) && Increasing(KeysOf(ps), DateLt)
    ensures Total(ps) == |Select(selected, rows)|
  {
    DateLtIsStrictTotalOrder();
    GroupCount(Dates(Select(selected, rows)), DateLt)
  }

  /** On calendar dates the timeline runs in strictly increasing day number. */
  lemma DailyTimelineChronological(selected: string, rows: seq<Row>)
    requires forall k :: 0 <= k < |rows| ==> ValidDate(rows[k].onlyDate)
    ensures var ps := DailyTimeline(selected, rows);
      forall i, j :: 0 <= i < j < |ps| ==> Ordinal(ps[i].0) < Ordinal(ps[j].0)
  {
    var ps := DailyTimeline(selected, rows);
    var df := Select(selected, rows);
    forall i, j | 0 <= i < j < |ps| ensures Ordinal(ps[i].0) < Ordinal(ps[j].0) {
      assert KeysOf(ps)[i] in Dates(df) && KeysOf(ps)[j] in Dates(df);
      assert DateLt(KeysOf(ps)[i], KeysOf(ps)[j]);
      DateLtIsChronological(ps[i].0, ps[j].0);
    }
  }

  // ---------------------------------------------------------------- activity maps

  function DayNamesOf(rows: seq<Row>): (ns: seq<string>)
    ensures |ns| == |rows| && forall k :: 0 <= k < |rows| ==> ns[k] == rows[k].dayName
  {
    seq(|rows|, k requires 0 <= k < |rows| => rows[k].dayName)
  }

  function MonthsOf(rows: seq<Row>): (ns: seq<string>)
    ensures |ns| == |rows| && forall k :: 0 <= k < |rows| ==> ns[k] == rows[k].month
  {
    seq(|rows|, k requires 0 <= k < |rows| => rows[k].month)
  }

  /** `week_activity_map`: `day_name.value_counts()`, busiest day first. */
  function WeekActivityMap(selected: string, rows: seq<Row>): (ps: seq<(string, nat)>)
    ensures IsTally(ps, DayNamesOf(Select(selected, rows))) && NonIncreasing(ps)
    ensures Total(ps) == |Select(selected, rows)|
  {
    Ranked(DayNamesOf(Select(selected, rows)))
  }

  /** `month_activity_map`: `month.value_counts()`, busiest month first. */
  function MonthActivityMap(selected: string, rows: seq<Row>): (ps: seq<(string, nat)>)
    ensures IsTally(ps, MonthsOf(Select(selected, rows))) && NonIncreasing(ps)
    ensures Total(ps) == |Select(selected, rows)|
  {
    Ranked(MonthsOf(Select(selected, rows)))
  }

  /** On parsed rows the week map is keyed by weekday names and the month map by month
      names. */
  lemma ActivityKeys(selected: string, rows: seq<Row>)
    requires forall k :: 0 <= k < |rows| ==> rows[k].dayName in DayNames && rows[k].month in MonthNames
    ensures forall i :: 0 <= i < |WeekActivityMap(selected, rows)| ==> WeekActivityMap(selected, rows)[i].0 in DayNames
    ensures forall i :: 0 <= i < |MonthActivityMap(selected, rows)| ==> MonthActivityMap(selected, rows)[i].0 in MonthNames
  {
    var df := Select(selected, rows);
    var w := WeekActivityMap(selected, rows);
    var m := MonthActivityMap(selected, rows);
    forall i | 0 <= i < |w| ensures w[i].0 in DayNames {
      assert KeysOf(w)[i] in DayNamesOf(df);
    }
    forall i | 0 <= i < |m| ensures m[i].0 in MonthNames {
      assert KeysOf(m)[i] in MonthsOf(df);
    }
  }

  // ---------------------------------------------------------------- activity_heatmap

  lemma StrLtIsStrictTotalOrder()
    ensures StrictTotalOrder(StrLt)
  {
    forall a: string ensures !StrLt(a, a) {
      StrLtIrreflexive(a);
    }
    forall a: string, b: string, c: string | StrLt(a, b) && StrLt(b, c) ensures StrLt(a, c) {
      StrLtTransitive(a, b, c);
    }
    forall a: string, b: string ensures a == b || StrLt(a, b) || StrLt(b, a) {
      StrLtTotal(a, b);
    }
  }

  function PeriodsOf(rows: seq<Row>): (ps: seq<string>)
    ensures |ps| == |rows| && forall k :: 0 <= k < |rows| ==> ps[k] == rows[k].period
  {
    seq(|rows|, k requires 0 <= k < |rows| => rows[k].period)
  }

  /** The (day name, period) cell each row falls in. */
  function Slots(rows: seq<Row>): (ss: seq<(string, string)>)
    ensures |ss| == |rows| && forall k :: 0 <= k < |rows| ==> ss[k] == (rows[k].dayName, rows[k].period)
  {
    seq(|rows|, k requires 0 <= k < |rows| => (rows[k].dayName, rows[k].period))
  }

  /** A pivot table: row labels, column labels and one count per cell. */
  datatype Heatmap = Heatmap(days: seq<string>, periods: seq<string>, cells: seq<seq<nat>>)

  /**
   * `activity_heatmap`: a table with the selected rows' day names down the side and their
   * periods across the top, both sorted as strings, whose cell is the number of rows
   * sent on that day in that period (0 where there are none).
   */
  function ActivityHeatmap(selected: string, rows: seq<Row>): (h: Heatmap)
    ensures Increasing(h.days, StrLt) && forall d :: d in h.days <==> d in DayNamesOf(Select(selected, rows))
    ensures Increasing(h.periods, StrLt) && forall p :: p in h.periods <==> p in PeriodsOf(Select(selected, rows))
    ensures |h.cells| == |h.days| && forall i :: 0 <= i < |h.days| ==> |h.cells[i]| == |h.periods|
    ensures forall i, j :: 0 <= i < |h.days| && 0 <= j < |h.periods| ==>
      h.cells[i][j] == Occ(Slots(Select(selected, rows)), (h.days[i], h.periods[j]))
  {
    StrLtIsStrictTotalOrder();
    var df := Select(selected, rows);
    var days := SortedKeys(DayNamesOf(df), StrLt);
    var periods := SortedKeys(PeriodsOf(df), StrLt);
    Heatmap(days, periods, Cells(df, days, periods))
  }

  /** Cell (i, j) counts the rows sent on days[i] in periods[j]. */
  function Cells(df: seq<Row>, days: seq<string>, periods: seq<string>): (cells: seq<seq<nat>>)
    ensures |cells| == |days| && forall i :: 0 <= i < |days| ==> |cells[i]| == |periods|
    ensures forall i, j :: 0 <= i < |days| && 0 <= j < |periods| ==> cells[i][j] == Occ(Slots(df), (days[i], periods[j]))
  {
    seq(|days|, i requires 0 <= i < |days| => CellRow(df, days[i], periods))
  }

  function CellRow(df: seq<Row>, d: string, periods: seq<string>): (row: seq<nat>)
    ensures |row| == |periods| && forall j :: 0 <= j < |periods| ==> row[j] == Occ(Slots(df), (d, periods[j]))
  {
    seq(|periods|, j requires 0 <= j < |periods| => Occ(Slots(df), (d, periods[j])))
  }

  /** The periods of the rows sent on day d, in order. */
  function PeriodsOfDay(rows: seq<Row>, d: string): seq<string>
  {
    if rows == [] then []
    else
      var last := rows[|rows| - 1];
      PeriodsOfDay(rows[..|rows| - 1], d) + if last.dayName == d then [last.period] else []
  }

  /** Day d has as many periods as rows, each of them a period of the table. */
  lemma {:induction false} DayPeriods(rows: seq<Row>, d: string)
    ensures |PeriodsOfDay(rows, d)| == Occ(DayNamesOf(rows), d)
    ensures forall p :: p in PeriodsOfDay(rows, d) ==> p in PeriodsOf(rows)
    decreases |rows|
  {
    if rows != [] {
      var init := rows[..|rows| - 1];
      var last := rows[|rows| - 1];
      DayPeriods(init, d);
      assert DayNamesOf(rows) == DayNamesOf(init) + [last.dayName];
      assert PeriodsOf(rows) == PeriodsOf(init) + [last.period];
      OccAppend(DayNamesOf(init), last.dayName, d);
    }
  }

  /** Counting the cell (d, p) is counting p among the periods of day d. */
  lemma {:induction false} DayCell(rows: seq<Row>, d: string, p: string)
    ensures Occ(Slots(rows), (d, p)) == Occ(PeriodsOfDay(rows, d), p)
    decreases |rows|
  {
    if rows != [] {
      var init := rows[..|rows| - 1];
      var last := rows[|rows| - 1];
      DayCell(init, d, p);
      assert Slots(rows) == Slots(init) + [(last.dayName, last.period)];
      OccAppend(Slots(init), (last.dayName, last.period), (d, p));
      if last.dayName == d {
        assert PeriodsOfDay(rows, d) == PeriodsOfDay(init, d) + [last.period];
        OccAppend(PeriodsOfDay(init, d), last.period, p);
      } else {
        assert PeriodsOfDay(rows, d) == PeriodsOfDay(init, d);
      }
    }
  }

  /** The sum of all cells of a table, row after row. */
  function Grand(cells: seq<seq<nat>>): nat
  {
    if cells == [] then 0 else Sum(cells[0]) + Grand(cells[1..])
  }

  lemma {:induction false} GrandOfRowSums(cells: seq<seq<nat>>, sums: seq<nat>)
    requires |sums| == |cells| && forall i :: 0 <= i < |cells| ==> Sum(cells[i]) == sums[i]
    ensures Grand(cells) == Sum(sums)
    decreases |cells|
  {
    if cells != [] {
      GrandOfRowSums(cells[1..], sums[1..]);
    }
  }

  /** Each row of the heatmap adds up to the number of messages sent on its day. */
  lemma HeatmapRow(df: seq<Row>, d: string, periods: seq<string>)
    requires StrictTotalOrder(StrLt) && Increasing(periods, StrLt)
    requires forall p :: p in PeriodsOf(df) ==> p in periods
    ensures Sum(CellRow(df, d, periods)) == Occ(DayNamesOf(df), d)
  {
    DayPeriods(df, d);
    var xs := PeriodsOfDay(df, d);
    forall j | 0 <= j < |periods| ensures Occ(Slots(df), (d, periods[j])) == Occ(xs, periods[j]) {
      DayCell(df, d, periods[j]);
    }
    assert CellRow(df, d, periods) == seq(|periods|, j requires 0 <= j < |periods| => Occ(xs, periods[j]));
    CountEachSum(periods, xs);
    IncreasingDistinct(periods, StrLt);
    CountEachTotal(periods, xs);
  }

  /** With every day and every period of df among the labels, the cells add up to |df|. */
  lemma CellsTotal(df: seq<Row>, days: seq<string>, periods: seq<string>)
    requires StrictTotalOrder(StrLt) && Increasing(days, StrLt) && Increasing(periods, StrLt)
    requires forall d :: d in DayNamesOf(df) ==> d in days
    requires forall p :: p in PeriodsOf(df) ==> p in periods
    ensures Grand(Cells(df, days, periods)) == |df|
  {
    var names := DayNamesOf(df);
    var cells := Cells(df, days, periods);
    var sums := seq(|days|, i requires 0 <= i < |days| => Occ(names, days[i]));
    forall i | 0 <= i < |days| ensures Sum(cells[i]) == sums[i] {
      assert cells[i] == CellRow(df, days[i], periods);
      HeatmapRow(df, days[i], periods);
    }
    GrandOfRowSums(cells, sums);
    CountEachSum(days, names);
    IncreasingDistinct(days, StrLt);
    CountEachTotal(days, names);
  }

  /** Every selected row lands in exactly one cell: the cells add up to the row count. */
  lemma HeatmapCountsEveryRow(selected: string, rows: seq<Row>)
    ensures Grand(ActivityHeatmap(selected, rows).cells) == |Select(selected, rows)|
  {
    StrLtIsStrictTotalOrder();
    var h := ActivityHeatmap(selected, rows);
    var df := Select(selected, rows);
    assert h.cells == Cells(df, h.days, h.periods);
    CellsTotal(df, h.days, h.periods);
  }

  // ---------------------------------------------------------------- the table preprocess builds

  /**
   * What the queries may rely on in preprocess's table: every row carries a calendar date
   * with its weekday name and month name, and no body is the media line, whose trailing
   * newline the stripping of bodies removes.
   */
  lemma ParsedRows(data: string)
    ensures forall k :: 0 <= k < |Preprocessed(data).rows| ==>
      ValidDate(Preprocessed(data).rows[k].onlyDate)
      && Preprocessed(data).rows[k].dayName in DayNames
      && Preprocessed(data).rows[k].month in MonthNames
      && Preprocessed(data).rows[k].message != MediaLine
  {
    RowsFollowTheTranscript(data);
    var rows := Preprocessed(data).rows;
    forall k | 0 <= k < |rows|
      ensures ValidDate(rows[k].onlyDate) && rows[k].dayName in DayNames && rows[k].month in MonthNames
      ensures rows[k].message != MediaLine
    {
      assert RowOf(rows[k], Stamps(data)[k], Entries(data)[k]);
      BodyIsStripped(Entries(data)[k]);
      assert IsSpace(MediaLine[|MediaLine| - 1]);
    }
  }

  /** The rows that are not group notices, in table order. */
  function NonNotices(rows: seq<Row>): (t: seq<Row>)
    ensures forall r :: r in t <==> r in rows && r.user != GroupNotice
  {
    if rows == [] then []
    else
      var init := rows[..|rows| - 1];
      var last := rows[|rows| - 1];
      assert rows == init + [last];
      NonNotices(init) + if last.user != GroupNotice then [last] else []
  }

  /** On rows none of which is the media line, the word queries' filter keeps exactly the
      rows that are not group notices, in the same order. */
  lemma {:induction false} NoMediaLines(rows: seq<Row>)
    requires forall k :: 0 <= k < |rows| ==> rows[k].message != MediaLine
    ensures TextRows(rows) == NonNotices(rows)
    decreases |rows|
  {
    if rows != [] {
      NoMediaLines(rows[..|rows| - 1]);
    }
  }

  /** So the media filter of the word queries removes nothing from that table: only the
      group notices go, and the rest stay as they are, in order. */
  lemma MediaFilterRemovesNothing(data: string)
    ensures TextRows(Preprocessed(data).rows) == NonNotices(Preprocessed(data).rows)
  {
    ParsedRows(data);
    NoMediaLines(Preprocessed(data).rows);
  }
}
