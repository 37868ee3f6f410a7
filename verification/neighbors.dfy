/** `find_nearest_neighbors`: scores every dataset entry by the mean, over the
    query's feature channels, of the cross-sequence distance between the query
    channel and the entry's channel of the same name; sorts the (file, score)
    pairs by ascending score with a stable sort; returns the files of the
    first `k` pairs. */
module Neighbors {
  import opened Reals
  import opened SearchErrors
  import opened SequenceDistance
  import opened StableSort

  /** The key under which a feature dict holds its recording's file path;
      it is skipped when the query's keys are walked. */
  const AudioFileKey: string := "Audio_File"

  /** Number of neighbours returned when the caller does not say. */
  const DefaultK: int := 5

  /** One key of the query dict with its per-segment values. */
  datatype Channel = Channel(name: string, values: seq<real>)

  /** One dataset row as the feature reader builds it: the file path and
      the channels keyed by name. */
  datatype Entry = Entry(audioFile: string, channels: map<string, seq<real>>)

  /** The query's keys in dict order, without the file-path key. */
  function QueryChannels(query: seq<Channel>): (cs: seq<Channel>)
    ensures |cs| <= |query|
  {
    if |query| == 0 then []
    else (if query[0].name == AudioFileKey then [] else [query[0]]) + QueryChannels(query[1..])
  }

  /** The channels compared are exactly the query's keys other than the
      file-path key. */
  lemma {:induction false} QueryChannelsMembers(query: seq<Channel>)
    ensures forall c :: c in QueryChannels(query) <==> c in query && c.name != AudioFileKey
  {
    if |query| > 0 {
      QueryChannelsMembers(query[1..]);
      assert query == [query[0]] + query[1..];
    }
  }

  /** Filtering the query's keys keeps their order: the filter of a
      concatenation is the concatenation of the filters. */
  lemma {:induction false} QueryChannelsConcat(a: seq<Channel>, b: seq<Channel>)
    ensures QueryChannels(a + b) == QueryChannels(a) + QueryChannels(b)
  {
    if |a| > 0 {
      var head := if a[0].name == AudioFileKey then [] else [a[0]];
      var ab := a + b;
      assert ab[0] == a[0];
      assert ab[1..] == a[1..] + b;
      assert QueryChannels(ab) == head + QueryChannels(ab[1..]);
      assert QueryChannels(a) == head + QueryChannels(a[1..]);
      QueryChannelsConcat(a[1..], b);
    } else {
      assert a + b == b;
    }
  }

  /** One key is kept exactly when it is not the file-path key. */
  lemma QueryChannelsSingle(c: Channel)
    ensures QueryChannels([c]) == if c.name == AudioFileKey then [] else [c]
  {
    assert [c][1..] == [];
  }

  /** The entry has the channel and both sequences can be compared. */
  predicate Comparable(c: Channel, e: Entry)
  {
    c.name in e.channels && |c.values| > 0 && |e.channels[c.name]| > 0
  }

  /** Every channel of `cs` is comparable with the entry. */
  predicate AllComparable(cs: seq<Channel>, e: Entry)
  {
    forall i :: 0 <= i < |cs| ==> Comparable(cs[i], e)
  }

  /** The failure a channel raises: the dict lookup comes first, then the distance. */
  function ChannelError(c: Channel, e: Entry): SearchError
  {
    if c.name !in e.channels then MissingChannel(c.name) else EmptySequence
  }

  /** `i` is the first channel of `cs` that cannot be compared with `e`. */
  predicate FirstIncomparable(cs: seq<Channel>, e: Entry, i: int)
  {
    && 0 <= i < |cs|
    && !Comparable(cs[i], e)
    && forall p :: 0 <= p < i ==> Comparable(cs[p], e)
  }

  /** The per-channel distances of one entry, in query order. */
  function ChannelDistances(cs: seq<Channel>, e: Entry): (r: Result<seq<real>>)
    ensures r.Ok? <==> AllComparable(cs, e)
    ensures r.Ok? ==> |r.value| == |cs|
    ensures r.Ok? ==> forall i :: 0 <= i < |cs| ==>
      Distance(cs[i].values, e.channels[cs[i].name]) == Ok(r.value[i])
    ensures r.Err? ==> exists i :: FirstIncomparable(cs, e, i) && r.error == ChannelError(cs[i], e)
  {
    if |cs| == 0 then Ok([])
    else if cs[0].name !in e.channels then
      assert FirstIncomparable(cs, e, 0);
      Err(MissingChannel(cs[0].name))
    else
      match Distance(cs[0].values, e.channels[cs[0].name])
      case Err(err) =>
        assert FirstIncomparable(cs, e, 0);
        Err(err)
      case Ok(d) =>
        match ChannelDistances(cs[1..], e)
        case Err(err) =>
          FirstIncomparableShift(cs, e, err);
          Err(err)
        case Ok(ds) =>
          DistancesCons(cs, e, d, ds);
          Ok([d] + ds)
  }

  /** A failure in the tail of the channels, after a comparable head, is the
      first failure of the whole list. */
  lemma FirstIncomparableShift(cs: seq<Channel>, e: Entry, err: SearchError)
    requires |cs| > 0 && Comparable(cs[0], e)
    requires exists i :: FirstIncomparable(cs[1..], e, i) && err == ChannelError(cs[1..][i], e)
    ensures exists i :: FirstIncomparable(cs, e, i) && err == ChannelError(cs[i], e)
  {
    var i :| FirstIncomparable(cs[1..], e, i) && err == ChannelError(cs[1..][i], e);
    assert FirstIncomparable(cs, e, i + 1);
  }

  /** The distance of the first channel followed by the distances of the
      rest are the distances of all channels. */
  lemma DistancesCons(cs: seq<Channel>, e: Entry, d: real, ds: seq<real>)
    requires |cs| > 0 && Comparable(cs[0], e) && AllComparable(cs[1..], e)
    requires Distance(cs[0].values, e.channels[cs[0].name]) == Ok(d)
    requires |ds| == |cs| - 1
    requires forall i :: 0 <= i < |cs| - 1 ==>
      Distance(cs[1..][i].values, e.channels[cs[1..][i].name]) == Ok(ds[i])
    ensures AllComparable(cs, e)
    ensures forall i :: 0 <= i < |cs| ==>
      Distance(cs[i].values, e.channels[cs[i].name]) == Ok(([d] + ds)[i])
  {
    assert forall i :: 1 <= i < |cs| ==> cs[i] == cs[1..][i - 1];
    forall i | 1 <= i < |cs|
      ensures Distance(cs[i].values, e.channels[cs[i].name]) == Ok(([d] + ds)[i])
    {
      assert cs[i] == cs[1..][i - 1];
    }
  }

  /** Every per-channel distance is non-negative. */
  lemma DistancesNonNegative(cs: seq<Channel>, e: Entry, ds: seq<real>)
    requires ChannelDistances(cs, e) == Ok(ds)
    ensures forall i :: 0 <= i < |ds| ==> 0.0 <= ds[i]
  {
    forall i | 0 <= i < |ds|
      ensures 0.0 <= ds[i]
    {
      DistanceIsMinimum(cs[i].values, e.channels[cs[i].name]);
    }
  }

  /** The score of one entry: the mean of its per-channel distances. */
  function EntryScore(cs: seq<Channel>, e: Entry): (r: Result<real>)
    requires |cs| > 0
    ensures r.Ok? <==> AllComparable(cs, e)
    ensures r.Ok? ==> r.value >= 0.0
    ensures r.Err? ==> exists i :: FirstIncomparable(cs, e, i) && r.error == ChannelError(cs[i], e)
  {
    match ChannelDistances(cs, e)
    case Err(err) => Err(err)
    case Ok(ds) =>
      DistancesNonNegative(cs, e, ds);
      MeanNonNegative(ds);
      Ok(Mean(ds))
  }

  /** `n` is the first dataset entry that cannot be scored. */
  predicate FirstUnscorable(cs: seq<Channel>, dataset: seq<Entry>, n: int)
  {
    && 0 <= n < |dataset|
    && !AllComparable(cs, dataset[n])
    && forall p :: 0 <= p < n ==> AllComparable(cs, dataset[p])
  }

  /** The recorded (file, score) pairs, in dataset order. */
  function ScoreAll(cs: seq<Channel>, dataset: seq<Entry>): (r: Result<seq<Scored>>)
    requires |cs| > 0
    ensures r.Ok? <==> forall n :: 0 <= n < |dataset| ==> AllComparable(cs, dataset[n])
    ensures r.Ok? ==> |r.value| == |dataset|
    ensures r.Ok? ==> forall n :: 0 <= n < |dataset| ==>
      && r.value[n].audioFile == dataset[n].audioFile
      && EntryScore(cs, dataset[n]) == Ok(r.value[n].score)
    ensures r.Err? ==> exists n :: FirstUnscorable(cs, dataset, n) && EntryScore(cs, dataset[n]) == Err(r.error)
  {
    if |dataset| == 0 then Ok([])
    else
      match EntryScore(cs, dataset[0])
      case Err(err) =>
        assert FirstUnscorable(cs, dataset, 0);
        Err(err)
      case Ok(score) =>
        match ScoreAll(cs, dataset[1..])
        case Err(err) =>
          FirstUnscorableShift(cs, dataset, err);
          Err(err)
        case Ok(rest) =>
          ScoredCons(cs, dataset, score, rest);
          Ok([Scored(dataset[0].audioFile, score)] + rest)
  }

  /** A failure in the tail of the dataset, after a scorable head, is the
      first failure of the whole dataset. */
  lemma FirstUnscorableShift(cs: seq<Channel>, dataset: seq<Entry>, err: SearchError)
    requires |cs| > 0 && |dataset| > 0 && AllComparable(cs, dataset[0])
    requires exists n :: FirstUnscorable(cs, dataset[1..], n) && EntryScore(cs, dataset[1..][n]) == Err(err)
    ensures exists n :: FirstUnscorable(cs, dataset, n) && EntryScore(cs, dataset[n]) == Err(err)
  {
    var n :| FirstUnscorable(cs, dataset[1..], n) && EntryScore(cs, dataset[1..][n]) == Err(err);
    FirstUnscorableStep(cs, dataset, n);
    assert dataset[1..][n] == dataset[n + 1];
  }

  /** Index `n` of the tail is index `n + 1` of a dataset whose head scores. */
  lemma FirstUnscorableStep(cs: seq<Channel>, dataset: seq<Entry>, n: int)
    requires |dataset| > 0 && AllComparable(cs, dataset[0])
    requires FirstUnscorable(cs, dataset[1..], n)
    ensures FirstUnscorable(cs, dataset, n + 1)
  {
    forall p | 0 <= p < n + 1
      ensures AllComparable(cs, dataset[p])
    {
      if p > 0 {
        assert dataset[p] == dataset[1..][p - 1];
      }
    }
    assert dataset[n + 1] == dataset[1..][n];
  }

  /** Prepending the first entry's pair to the pairs of the remaining entries
      gives the pairs of the whole dataset. */
  lemma ScoredCons(cs: seq<Channel>, dataset: seq<Entry>, score: real, rest: seq<Scored>)
    requires |cs| > 0 && |dataset| > 0
    requires EntryScore(cs, dataset[0]) == Ok(score)
    requires |rest| == |dataset| - 1
    requires forall n :: 0 <= n < |dataset| - 1 ==>
      rest[n].audioFile == dataset[1..][n].audioFile && EntryScore(cs, dataset[1..][n]) == Ok(rest[n].score)
    ensures forall n :: 0 <= n < |dataset| ==>
      var pairs := [Scored(dataset[0].audioFile, score)] + rest;
      pairs[n].audioFile == dataset[n].audioFile && EntryScore(cs, dataset[n]) == Ok(pairs[n].score)
  {
    var pairs := [Scored(dataset[0].audioFile, score)] + rest;
    forall n | 1 <= n < |dataset|
      ensures pairs[n].audioFile == dataset[n].audioFile && EntryScore(cs, dataset[n]) == Ok(pairs[n].score)
    {
      assert dataset[n] == dataset[1..][n - 1];
      assert pairs[n] == rest[n - 1];
    }
  }

  /** Length of Python's `s[:k]` on a list of length `n`: a negative `k`
      counts from the end. */
  function SliceLength(n: nat, k: int): (m: nat)
    ensures m <= n
    ensures 0 <= k ==> m == (if k < n then k else n)
    ensures k < 0 ==> m + (if -k < n then -k else n) == n
  {
    var stop := if k < 0 then n + k else k;
    if stop <= 0 then 0 else if stop < n then stop else n
  }

  /** Python's prefix slice `s[:k]`: for `k >= 0` the first `min(k, |s|)`
      items, for `k < 0` everything but the last `min(-k, |s|)` items. */
  function Take<T>(s: seq<T>, k: int): (r: seq<T>)
    ensures 0 <= k ==> |r| == (if k < |s| then k else |s|)
    ensures 0 <= k ==> forall i :: 0 <= i < |r| ==> r[i] == s[i]
    ensures k < 0 ==> |s| - |r| == (if -k < |s| then -k else |s|)
    ensures k < 0 ==> r + s[|r|..] == s
  {
    s[..SliceLength(|s|, k)]
  }

  /** The files of a list of pairs, in order: `[item[0] for item in ...]`. */
  function Files(ps: seq<Scored>): (fs: seq<string>)
    ensures |fs| == |ps|
  {
    seq(|ps|, i requires 0 <= i < |ps| => ps[i].audioFile)
  }

  /** The files of the dataset, in dataset order. */
  function EntryFiles(dataset: seq<Entry>): (fs: seq<string>)
    ensures |fs| == |dataset|
  {
    seq(|dataset|, i requires 0 <= i < |dataset| => dataset[i].audioFile)
  }

  /** `find_nearest_neighbors(query, dataset, k)`. When the query has no
      channel besides the file path, numpy's mean of no distances is NaN for
      every entry and the sort leaves the NaN-keyed list as it was, so the
      first `k` files come back in dataset order. */
  function FindNearest(query: seq<Channel>, dataset: seq<Entry>, k: int): (r: Result<seq<string>>)
    ensures r.Ok? <==> forall n :: 0 <= n < |dataset| ==> AllComparable(QueryChannels(query), dataset[n])
    ensures r.Ok? ==> |r.value| == SliceLength(|dataset|, k)
    ensures r.Ok? ==> multiset(r.value) <= multiset(EntryFiles(dataset))
    ensures |dataset| == 0 ==> r == Ok([])
    ensures r.Err? ==> exists n ::
      FirstUnscorable(QueryChannels(query), dataset, n) && EntryScore(QueryChannels(query), dataset[n]) == Err(r.error)
  {
    var cs := QueryChannels(query);
    if |cs| == 0 then
      var fs := EntryFiles(dataset);
      PrefixMultiset(fs, SliceLength(|fs|, k));
      Ok(Take(fs, k))
    else
      match ScoreAll(cs, dataset)
      case Err(err) => Err(err)
      case Ok(pairs) =>
        var ranked := SortByScore(pairs);
        var m := SliceLength(|ranked|, k);
        FilesOfSort(pairs);
        assert Files(pairs) == EntryFiles(dataset);
        FilesOfPrefix(ranked, m);
        PrefixMultiset(Files(ranked), m);
        Ok(Files(Take(ranked, k)))
  }

  /** A prefix holds a sub-multiset of the whole. */
  lemma PrefixMultiset<T>(s: seq<T>, m: nat)
    requires m <= |s|
    ensures multiset(s[..m]) <= multiset(s)
  {
    assert s == s[..m] + s[m..];
  }

  /** Taking files commutes with taking a prefix. */
  lemma FilesOfPrefix(ps: seq<Scored>, m: nat)
    requires m <= |ps|
    ensures Files(ps[..m]) == Files(ps)[..m]
  {
  }

  /** The files of a non-empty list are its head's file, then the rest's. */
  lemma FilesCons(ps: seq<Scored>)
    requires |ps| > 0
    ensures Files(ps) == [ps[0].audioFile] + Files(ps[1..])
  {
  }

  /** Inserting a pair adds its file to the files. */
  lemma {:induction false} FilesOfInsert(x: Scored, t: seq<Scored>)
    ensures multiset(Files(Insert(x, t))) == multiset(Files(t)) + multiset{x.audioFile}
  {
    if |t| == 0 {
      assert Files([x]) == [x.audioFile];
    } else if x.score <= t[0].score {
      FilesCons([x] + t);
      assert ([x] + t)[1..] == t;
    } else {
      var rest := Insert(x, t[1..]);
      FilesOfInsert(x, t[1..]);
      FilesCons([t[0]] + rest);
      assert ([t[0]] + rest)[1..] == rest;
      FilesCons(t);
    }
  }

  /** Sorting the pairs permutes their files. */
  lemma {:induction false} FilesOfSort(s: seq<Scored>)
    ensures multiset(Files(SortByScore(s))) == multiset(Files(s))
  {
    if |s| > 0 {
      var rest := SortByScore(s[1..]);
      assert SortByScore(s) == Insert(s[0], rest);
      FilesOfSort(s[1..]);
      FilesOfInsert(s[0], rest);
      FilesCons(s);
    }
  }

  /** For `k >= 0` the search returns `min(k, |dataset|)` files. */
  lemma ResultLength(query: seq<Channel>, dataset: seq<Entry>, k: int)
    requires k >= 0
    requires FindNearest(query, dataset, k).Ok?
    ensures |FindNearest(query, dataset, k).value| == (if k < |dataset| then k else |dataset|)
  {
  }

  /** The ranking: with at least one channel, the result is the files of the
      first pairs of THE stable ascending sort of the recorded pairs (any
      stable sort, since they all agree), so returned scores never decrease
      and no pair left out scores below a returned one. */
  lemma NearestAreClosest(query: seq<Channel>, dataset: seq<Entry>, k: int)
    requires |QueryChannels(query)| > 0
    requires FindNearest(query, dataset, k).Ok?
    ensures ScoreAll(QueryChannels(query), dataset).Ok?
    ensures forall ranked: seq<Scored> :: StableSortOf(ranked, ScoreAll(QueryChannels(query), dataset).value) ==>
      var m := |FindNearest(query, dataset, k).value|;
      && m <= |ranked|
      && FindNearest(query, dataset, k).value == Files(ranked[..m])
      && (forall i, j :: 0 <= i < j < m ==> ranked[i].score <= ranked[j].score)
      && (forall i, j :: 0 <= i < m <= j < |ranked| ==> ranked[i].score <= ranked[j].score)
  {
    var cs := QueryChannels(query);
    var pairs := ScoreAll(cs, dataset).value;
    var r := FindNearest(query, dataset, k).value;
    SortByScoreIsStableSort(pairs);
    forall ranked | StableSortOf(ranked, pairs)
      ensures |r| <= |ranked| && r == Files(ranked[..|r|])
    {
      StableSortUnique(ranked, SortByScore(pairs), pairs);
    }
  }

  /** When `k` reaches the dataset size every file is returned, each as often
      as it occurs in the dataset, in ascending score order. */
  lemma AllReturnedWhenKCoversDataset(query: seq<Channel>, dataset: seq<Entry>, k: int)
    requires k >= |dataset|
    requires FindNearest(query, dataset, k).Ok?
    ensures multiset(FindNearest(query, dataset, k).value) == multiset(EntryFiles(dataset))
  {
    var cs := QueryChannels(query);
    if |cs| > 0 {
      var pairs := ScoreAll(cs, dataset).value;
      var ranked := SortByScore(pairs);
      FilesOfSort(pairs);
      assert Files(pairs) == EntryFiles(dataset);
      assert ranked[..|ranked|] == ranked;
    } else {
      assert EntryFiles(dataset)[..|dataset|] == EntryFiles(dataset);
    }
  }

  /** A value at two positions occurs at least twice. */
  lemma TwoPositionsCount<T>(s: seq<T>, i: nat, j: nat)
    requires i < j < |s| && s[i] == s[j]
    ensures multiset(s)[s[i]] >= 2
  {
    assert s == s[..i] + [s[i]] + s[i + 1..j] + [s[j]] + s[j + 1..];
  }

  /** In a sequence without repeats every value occurs at most once. */
  lemma {:induction false} DistinctCountAtMostOne<T>(s: seq<T>, x: T)
    requires forall i, j :: 0 <= i < j < |s| ==> s[i] != s[j]
    ensures multiset(s)[x] <= 1
  {
    if |s| > 0 {
      DistinctCountAtMostOne(s[1..], x);
      assert s == [s[0]] + s[1..];
      if s[0] == x {
        assert x !in s[1..];
      }
    }
  }

  /** When the dataset's file paths are distinct, so are the returned ones:
      each entry fills at most one position of the result. */
  lemma NoDuplicatesWhenFilesDistinct(query: seq<Channel>, dataset: seq<Entry>, k: int)
    requires forall i, j :: 0 <= i < j < |dataset| ==> dataset[i].audioFile != dataset[j].audioFile
    requires FindNearest(query, dataset, k).Ok?
    ensures var r := FindNearest(query, dataset, k).value;
      forall i, j :: 0 <= i < j < |r| ==> r[i] != r[j]
  {
    var fs := EntryFiles(dataset);
    assert forall i, j :: 0 <= i < j < |fs| ==> fs[i] != fs[j];
    DistinctSubMultiset(FindNearest(query, dataset, k).value, fs);
  }

  /** A sequence drawn from a sequence without repeats has none either. */
  lemma DistinctSubMultiset<T>(r: seq<T>, fs: seq<T>)
    requires multiset(r) <= multiset(fs)
    requires forall i, j :: 0 <= i < j < |fs| ==> fs[i] != fs[j]
    ensures forall i, j :: 0 <= i < j < |r| ==> r[i] != r[j]
  {
    forall i, j | 0 <= i < j < |r|
      ensures r[i] != r[j]
    {
      if r[i] == r[j] {
        TwoPositionsCount(r, i, j);
        DistinctCountAtMostOne(fs, r[i]);
        assert false;
      }
    }
  }

  /** Two entries with the same score come back in dataset order: among the
      recorded pairs of one score, the returned ones are the first ones. */
  lemma TiesKeepDatasetOrder(query: seq<Channel>, dataset: seq<Entry>, k: int, v: real)
    requires |QueryChannels(query)| > 0
    requires FindNearest(query, dataset, k).Ok?
    ensures ScoreAll(QueryChannels(query), dataset).Ok?
    ensures var ranked := SortByScore(ScoreAll(QueryChannels(query), dataset).value);
      var m := |FindNearest(query, dataset, k).value|;
      && m <= |ranked|
      && WithScore(ranked[..m], v) <= WithScore(ScoreAll(QueryChannels(query), dataset).value, v)
  {
    var pairs := ScoreAll(QueryChannels(query), dataset).value;
    var ranked := SortByScore(pairs);
    var m := |FindNearest(query, dataset, k).value|;
    SortByScoreIsStable(pairs, v);
    WithScoreOfPrefix(ranked, m, v);
  }

  /** The runs of a prefix are prefixes of the runs of the whole. */
  lemma {:induction false} WithScoreOfPrefix(s: seq<Scored>, m: nat, v: real)
    requires m <= |s|
    ensures WithScore(s[..m], v) <= WithScore(s, v)
  {
    if m > 0 {
      WithScoreOfPrefix(s[1..], m - 1, v);
      assert s[..m][1..] == s[1..][..m - 1];
    }
  }

  /** Extra channels of an entry that the query does not name are never read:
      two entries that agree on the query's channels score the same. */
  lemma {:induction false} ExtraChannelsIgnored(cs: seq<Channel>, e1: Entry, e2: Entry)
    requires forall i :: 0 <= i < |cs| ==>
      (cs[i].name in e1.channels <==> cs[i].name in e2.channels)
      && (cs[i].name in e1.channels ==> e1.channels[cs[i].name] == e2.channels[cs[i].name])
    ensures ChannelDistances(cs, e1) == ChannelDistances(cs, e2)
  {
    if |cs| > 0 {
      ExtraChannelsIgnored(cs[1..], e1, e2);
    }
  }

  /** An entry's score is zero exactly when every query channel shares a value
      with the entry's channel of the same name. */
  lemma ScoreZeroIff(cs: seq<Channel>, e: Entry)
    requires |cs| > 0 && EntryScore(cs, e).Ok?
    ensures EntryScore(cs, e).value == 0.0 <==>
      forall i :: 0 <= i < |cs| ==> SharesValue(cs[i].values, e.channels[cs[i].name])
  {
    var ds := ChannelDistances(cs, e).value;
    assert EntryScore(cs, e).value == Mean(ds);
    DistancesNonNegative(cs, e, ds);
    MeanZeroIff(ds);
    forall i | 0 <= i < |cs|
      ensures ds[i] == 0.0 <==> SharesValue(cs[i].values, e.channels[cs[i].name])
    {
      DistanceZeroIff(cs[i].values, e.channels[cs[i].name]);
    }
  }

  /** The score lies between the smallest and the largest channel distance. */
  lemma ScoreBetweenChannelDistances(cs: seq<Channel>, e: Entry)
    requires |cs| > 0 && EntryScore(cs, e).Ok?
    ensures exists i :: 0 <= i < |cs| && Distance(cs[i].values, e.channels[cs[i].name]).value <= EntryScore(cs, e).value
    ensures exists j :: 0 <= j < |cs| && EntryScore(cs, e).value <= Distance(cs[j].values, e.channels[cs[j].name]).value
  {
    var ds := ChannelDistances(cs, e).value;
    MeanBetweenElements(ds);
  }

  /** The two-recording example: a query with one channel `pitch` = [1.0]
      against entries "a" (pitch [1.0]) and "b" (pitch [5.0]). */
  function ExampleQuery(): seq<Channel> { [Channel("pitch", [1.0])] }
  function ExampleDataset(): seq<Entry> { [Entry("a", map["pitch" := [1.0]]), Entry("b", map["pitch" := [5.0]])] }

  lemma ExampleEntryScores()
    ensures EntryScore(ExampleQuery(), ExampleDataset()[0]) == Ok(0.0)
    ensures EntryScore(ExampleQuery(), ExampleDataset()[1]) == Ok(4.0)
  {
    var cs := ExampleQuery();
    var a, b := ExampleDataset()[0], ExampleDataset()[1];
    DistanceToSelf([1.0]);
    assert a.channels[cs[0].name] == [1.0];
    assert b.channels[cs[0].name] == [5.0];
    assert AllComparable(cs, a) && AllComparable(cs, b);
    var da, db := ChannelDistances(cs, a).value, ChannelDistances(cs, b).value;
    assert da == [da[0]] && db == [db[0]];
    assert CrossMin([1.0], [5.0]) == 4.0;
    assert da == [0.0] && db == [4.0];
    assert Sum([0.0]) == 0.0 + Sum([]);
    assert Sum([4.0]) == 4.0 + Sum([]);
  }

  lemma ExamplePairs()
    ensures ScoreAll(ExampleQuery(), ExampleDataset()) == Ok([Scored("a", 0.0), Scored("b", 4.0)])
  {
    ExampleEntryScores();
    var pairs := [Scored("a", 0.0), Scored("b", 4.0)];
    var ps := ScoreAll(ExampleQuery(), ExampleDataset()).value;
    assert |ps| == 2 && ps[0] == pairs[0] && ps[1] == pairs[1];
    assert ps == pairs;
  }

  /** Two recordings, one query channel: the exact match ranks first. */
  lemma ExampleClosestFirst()
    ensures FindNearest(ExampleQuery(), ExampleDataset(), 1) == Ok(["a"])
  {
    ExampleChannels();
    ExamplePairs();
    ExampleSorted();
    FindNearestScored(ExampleQuery(), ExampleDataset(), 1);
    ExampleFirstFile();
  }

  lemma ExampleChannels()
    ensures QueryChannels(ExampleQuery()) == ExampleQuery()
  {
  }

  lemma ExampleFirstFile()
    ensures Files(Take([Scored("a", 0.0), Scored("b", 4.0)], 1)) == ["a"]
  {
    var pairs := [Scored("a", 0.0), Scored("b", 4.0)];
    assert Take(pairs, 1) == [pairs[0]];
  }

  /** With at least one channel and every entry scorable, the search returns
      the first files of the sorted pairs. */
  lemma FindNearestScored(query: seq<Channel>, dataset: seq<Entry>, k: int)
    requires |QueryChannels(query)| > 0 && ScoreAll(QueryChannels(query), dataset).Ok?
    ensures FindNearest(query, dataset, k)
         == Ok(Files(Take(SortByScore(ScoreAll(QueryChannels(query), dataset).value), k)))
  {
  }

  lemma ExampleSorted()
    ensures SortByScore([Scored("a", 0.0), Scored("b", 4.0)]) == [Scored("a", 0.0), Scored("b", 4.0)]
  {
    var pairs := [Scored("a", 0.0), Scored("b", 4.0)];
    SortByScoreIsStableSort(pairs);
    assert StableSortOf(pairs, pairs);
    StableSortUnique(SortByScore(pairs), pairs, pairs);
  }

  /** A query channel the entry lacks fails the whole search. */
  lemma ExampleMissingChannel()
    ensures FindNearest([Channel("pitch", [1.0])], [Entry("a", map["loudness" := [1.0]])], DefaultK)
            == Err(MissingChannel("pitch"))
  {
    assert QueryChannels([Channel("pitch", [1.0])]) == [Channel("pitch", [1.0])];
  }

  /** An empty query channel fails rather than scoring zero. */
  lemma ExampleEmptyChannel()
    ensures FindNearest([Channel("pitch", [])], [Entry("a", map["pitch" := [1.0]])], DefaultK)
            == Err(EmptySequence)
  {
    assert QueryChannels([Channel("pitch", [])]) == [Channel("pitch", [])];
  }
}
