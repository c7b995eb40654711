/**
 * The request URLs of the three REST resources, and the extractors that read
 * a resource id back out of a URL with the pattern `/kind/(\d+)`.
 */
module Urls {
  import opened Wrappers
  import opened Numbers
  import Config
  import Sequences
  import Query

  /** The three resources the API serves. */
  datatype Kind = Character | Location | Episode

  /** An id as the accessors accept it: `string | number`. */
  datatype Id = Num(n: int) | Text(s: string)

  function Endpoint(kind: Kind): (e: string)
    ensures |e| >= 2 && e[0] == '/'
  {
    match kind
    case Character => Config.CHARACTERS_ENDPOINT
    case Location => Config.LOCATIONS_ENDPOINT
    case Episode => Config.EPISODES_ENDPOINT
  }

  /** What a template literal writes for an id. */
  function IdText(id: Id): string {
    match id
    case Num(n) => IntToString(n)
    case Text(s) => s
  }

  /** `Array.prototype.join`: the parts with `sep` between neighbours. */
  function Join(parts: seq<string>, sep: string): (r: string)
    ensures |parts| == 1 ==> r == parts[0]
    ensures |parts| == 0 ==> r == ""
  {
    if |parts| == 0 then ""
    else if |parts| == 1 then parts[0]
    else parts[0] + sep + Join(parts[1..], sep)
  }

  /** The decimal text of each id, in order. */
  function IdTexts(ids: seq<int>): (r: seq<string>)
    ensures |r| == |ids|
    ensures forall i :: 0 <= i < |ids| ==> r[i] == IntToString(ids[i])
  {
    if ids == [] then [] else [IntToString(ids[0])] + IdTexts(ids[1..])
  }

  /** `url` starts with the base URL followed by the endpoint of `kind`, and goes on with `rest`. */
  predicate Requests(url: string, kind: Kind, rest: string) {
    var prefix := Config.BASE_URL + Endpoint(kind);
    |prefix| <= |url| && url[..|prefix|] == prefix && url[|prefix|..] == rest
  }

  /** A list request: base, endpoint, then the query string (empty or starting with `?`). */
  function ListUrl(kind: Kind, query: string): (url: string)
    ensures Requests(url, kind, query)
  {
    Config.BASE_URL + Endpoint(kind) + query
  }

  /** A single-item request: base, endpoint, `/`, id. */
  function ItemUrl(kind: Kind, id: Id): (url: string)
    ensures Requests(url, kind, "/" + IdText(id))
  {
    Sequences.AppendAssoc(Config.BASE_URL + Endpoint(kind), "/", IdText(id));
    Config.BASE_URL + Endpoint(kind) + "/" + IdText(id)
  }

  /** A batch request: base, endpoint, `/`, then the ids joined by `,`. */
  function BatchUrl(kind: Kind, ids: seq<int>): (url: string)
    ensures Requests(url, kind, "/" + Join(IdTexts(ids), ","))
  {
    Sequences.AppendAssoc(Config.BASE_URL + Endpoint(kind), "/", Join(IdTexts(ids), ","));
    Config.BASE_URL + Endpoint(kind) + "/" + Join(IdTexts(ids), ",")
  }

  /** A batch of one id is requested at the same URL as that single item. */
  lemma BatchOfOne(kind: Kind, id: int)
    ensures BatchUrl(kind, [id]) == ItemUrl(kind, Num(id))
  {
    assert IdTexts([id]) == [IntToString(id)];
  }

  /** Splitting a join at its separator gives the parts back, when no part contains the separator. */
  lemma {:induction false} SplitJoin(parts: seq<string>, sep: char)
    requires parts != []
    requires forall i :: 0 <= i < |parts| ==> sep !in parts[i]
    ensures Query.Split(Join(parts, [sep]), sep) == parts
  {
    if |parts| > 1 {
      var first, rest := parts[0], Join(parts[1..], [sep]);
      var s := Join(parts, [sep]);
      assert s == first + [sep] + rest;
      assert s[|first|] == sep && s[..|first|] == first;
      assert Query.IndexOf(s, sep) == |first|;
      assert s[|first| + 1..] == rest;
      SplitJoin(parts[1..], sep);
    }
  }

  /** `String(i)` writes only digits and a leading minus sign, never a comma. */
  lemma NoCommaInIdText(i: int)
    ensures ',' !in IntToString(i)
  {
    var s := IntToString(i);
    forall k | 0 <= k < |s|
      ensures s[k] != ','
    {
      if i < 0 && k >= 1 {
        assert s[k] == NatToString(-i)[k - 1];
      }
    }
  }

  /** Different integers are written differently. */
  lemma IntToStringInjective(i: int, j: int)
    requires IntToString(i) == IntToString(j)
    ensures i == j
  {
    if i >= 0 && j >= 0 {
      NatToStringInjective(i, j);
    } else if i < 0 && j < 0 {
      NatToStringInjective(-i, -j);
    }
  }

  /** The batch path of a non-empty id list splits at `,` into the ids' decimal texts. */
  lemma BatchPathSplits(ids: seq<int>)
    requires ids != []
    ensures Query.Split(Join(IdTexts(ids), ","), ',') == IdTexts(ids)
  {
    forall i | 0 <= i < |ids|
      ensures ',' !in IdTexts(ids)[i]
    {
      NoCommaInIdText(ids[i]);
    }
    SplitJoin(IdTexts(ids), ',');
  }

  /** Different id lists are requested at different batch URLs, so they never share a cache entry. */
  lemma BatchUrlInjective(kind: Kind, ids1: seq<int>, ids2: seq<int>)
    requires BatchUrl(kind, ids1) == BatchUrl(kind, ids2)
    ensures ids1 == ids2
  {
    var prefix := Config.BASE_URL + Endpoint(kind) + "/";
    var j1, j2 := Join(IdTexts(ids1), ","), Join(IdTexts(ids2), ",");
    assert BatchUrl(kind, ids1) == prefix + j1 && BatchUrl(kind, ids2) == prefix + j2;
    assert j1 == (prefix + j1)[|prefix|..];
    assert j1 == j2;
    BatchPathEmpty(ids1);
    BatchPathEmpty(ids2);
    if ids1 != [] && ids2 != [] {
      BatchPathSplits(ids1);
      BatchPathSplits(ids2);
      forall i | 0 <= i < |ids1|
        ensures ids1[i] == ids2[i]
      {
        IntToStringInjective(ids1[i], ids2[i]);
      }
    }
  }

  /** The batch path is empty exactly for an empty id list. */
  lemma BatchPathEmpty(ids: seq<int>)
    ensures Join(IdTexts(ids), ",") == "" <==> ids == []
  {
    if ids != [] {
      assert |IdTexts(ids)[0]| >= 1;
      if |ids| > 1 {
        assert Join(IdTexts(ids), ",") == IdTexts(ids)[0] + "," + Join(IdTexts(ids)[1..], ",");
      }
    }
  }

  // ---------------------------------------------------------------------------
  // Id extraction: `url.match(/\/kind\/(\d+)/)` then `parseInt(match[1], 10)`.
  // ---------------------------------------------------------------------------

  /** The literal part of the pattern: `/kind/`. */
  function Marker(kind: Kind): (m: string)
    ensures |m| >= 3 && m[0] == '/' && m[|m| - 1] == '/'
  {
    Endpoint(kind) + "/"
  }

  /** The pattern matches at position `i` of `s`: `m` there, then at least one digit. */
  predicate MatchAt(s: string, m: string, i: nat) {
    i + |m| < |s| && s[i..i + |m|] == m && IsDigit(s[i + |m|])
  }

  /** The end of the maximal run of digits that starts at `j` (greedy `\d+`). */
  function DigitRunEnd(s: string, j: nat): (e: nat)
    requires j <= |s|
    ensures j <= e <= |s|
    ensures forall k :: j <= k < e ==> IsDigit(s[k])
    ensures e == |s| || !IsDigit(s[e])
    decreases |s| - j
  {
    if j < |s| && IsDigit(s[j]) then DigitRunEnd(s, j + 1) else j
  }

  /** The leftmost position at or after `from` where the pattern matches. */
  function FirstMatch(s: string, m: string, from: nat): (r: Option<nat>)
    ensures r.Some? ==> from <= r.value && MatchAt(s, m, r.value)
    ensures r.Some? ==> forall k :: from <= k < r.value ==> !MatchAt(s, m, k)
    ensures r.None? ==> forall k :: from <= k ==> !MatchAt(s, m, k)
    decreases |s| - from
  {
    if from >= |s| then None
    else if MatchAt(s, m, from) then Some(from)
    else FirstMatch(s, m, from + 1)
  }

  /**
   * `get{Character,Location,Episode}IdFromUrl`: the value of the digits the
   * leftmost match captures, or null (`None`) when the pattern does not occur.
   */
  function IdFromUrl(kind: Kind, url: string): (r: Option<nat>)
    ensures r.None? <==> forall i: nat :: !MatchAt(url, Marker(kind), i)
    ensures r.Some? ==> exists i: nat :: MatchAt(url, Marker(kind), i) && r.value == Capture(url, i + |Marker(kind)|)
  {
    match FirstMatch(url, Marker(kind), 0)
    case None => None
    case Some(i) => Some(Capture(url, i + |Marker(kind)|))
  }

  /** `parseInt` of the captured group: the maximal digit run starting at `j`. */
  function Capture(s: string, j: nat): nat
    requires j <= |s|
  {
    var e := DigitRunEnd(s, j);
    assert AllDigits(s[j..e]) by {
      assert forall k :: 0 <= k < e - j ==> s[j..e][k] == s[j + k];
    }
    ParseDigits(s[j..e])
  }

  /** `get{Episode,Character}IdsFromUrls`: the ids of the urls that carry one, in order. */
  function IdsFromUrls(kind: Kind, urls: seq<string>): (r: seq<nat>)
    ensures |r| <= |urls|
  {
    Present(Lookups(kind, urls))
  }

  /** `urls.map(url => getXIdFromUrl(url))`. */
  function Lookups(kind: Kind, urls: seq<string>): (r: seq<Option<nat>>)
    ensures |r| == |urls| && forall i :: 0 <= i < |urls| ==> r[i] == IdFromUrl(kind, urls[i])
  {
    seq(|urls|, i requires 0 <= i < |urls| => IdFromUrl(kind, urls[i]))
  }

  /** `filter((id): id is number => id !== null)`: the present values, in order. */
  function Present(xs: seq<Option<nat>>): (r: seq<nat>)
    ensures |r| <= |xs|
  {
    if xs == [] then []
    else (if xs[0].Some? then [xs[0].value] else []) + Present(xs[1..])
  }

  // ---------------------------------------------------------------------------
  // Properties of the extractors.
  // ---------------------------------------------------------------------------

  /** The pattern cannot match where its first two characters do not. */
  lemma NotMatchAt(s: string, m: string, i: nat)
    requires |m| >= 2 && i + 1 < |s|
    requires s[i] != m[0] || s[i + 1] != m[1]
    ensures !MatchAt(s, m, i)
  {
    if i + |m| < |s| {
      assert s[i..i + |m|][0] == s[i] && s[i..i + |m|][1] == s[i + 1];
    }
  }

  /** The only slashes in the base URL are at 6, 7 and 27, followed by `/`, `r` and `a`. */
  lemma BaseSlashes()
    ensures forall k :: 0 <= k < |Config.BASE_URL| && Config.BASE_URL[k] == '/' ==> k == 6 || k == 7 || k == 27
    ensures Config.BASE_URL[7] == '/' && Config.BASE_URL[8] == 'r' && Config.BASE_URL[28] == 'a'
    ensures |Config.BASE_URL| == 31 && Config.BASE_URL[30] != '/'
  {
  }

  /** No resource marker starts inside the base URL, whatever follows it. */
  lemma NoMatchInBase(kind: Kind, rest: string)
    requires |rest| >= 1 && rest[0] == '/'
    ensures forall k :: 0 <= k < |Config.BASE_URL| ==> !MatchAt(Config.BASE_URL + rest, Marker(kind), k)
  {
    var url := Config.BASE_URL + rest;
    var m := Marker(kind);
    BaseSlashes();
    assert m[1] == 'c' || m[1] == 'l' || m[1] == 'e';
    forall k | 0 <= k < |Config.BASE_URL|
      ensures !MatchAt(url, m, k)
    {
      assert url[k] == Config.BASE_URL[k];
      if k == 30 {
        assert url[k] != m[0];
      } else {
        assert url[k + 1] == Config.BASE_URL[k + 1];
      }
      NotMatchAt(url, m, k);
    }
  }

  /**
   * Otherwise it yields the value of the maximal digit run after the leftmost
   * match, whatever follows that run (the pattern is not anchored at the end).
   */
  lemma IdFromUrlSome(kind: Kind, url: string, i: nat)
    requires MatchAt(url, Marker(kind), i)
    requires forall k :: 0 <= k < i ==> !MatchAt(url, Marker(kind), k)
    ensures IdFromUrl(kind, url) == Some(Capture(url, i + |Marker(kind)|))
  {
    FirstMatchIs(url, Marker(kind), i);
  }

  /** The leftmost match is the match with none before it. */
  lemma FirstMatchIs(s: string, m: string, i: nat)
    requires MatchAt(s, m, i)
    requires forall k :: 0 <= k < i ==> !MatchAt(s, m, k)
    ensures FirstMatch(s, m, 0) == Some(i)
  {
    var r := FirstMatch(s, m, 0);
    assert r.Some? && !(r.value < i) && !(i < r.value);
  }

  /** A capture that runs to the end of the string reads all of it. */
  lemma CaptureToEnd(s: string, j: nat)
    requires j <= |s| && AllDigits(s[j..])
    ensures Capture(s, j) == ParseDigits(s[j..])
  {
    forall k | j <= k < |s|
      ensures IsDigit(s[k])
    {
      assert s[j..][k - j] == s[k];
    }
    DigitRunToEnd(s, j);
    assert s[j..DigitRunEnd(s, j)] == s[j..];
  }

  /** When the digits run to `e` and no further, the greedy run ends at `e`. */
  lemma {:induction false} DigitRunStops(s: string, j: nat, e: nat)
    requires j <= e <= |s|
    requires forall k :: j <= k < e ==> IsDigit(s[k])
    requires e == |s| || !IsDigit(s[e])
    ensures DigitRunEnd(s, j) == e
    decreases e - j
  {
    if j < e {
      DigitRunStops(s, j + 1, e);
    }
  }

  /** When the digits run to the end of `s`, the greedy run ends there. */
  lemma DigitRunToEnd(s: string, j: nat)
    requires j <= |s|
    requires forall k :: j <= k < |s| ==> IsDigit(s[k])
    ensures DigitRunEnd(s, j) == |s|
  {
    DigitRunStops(s, j, |s|);
  }

  /** The extractor reads back the id of the item URL it is applied to. */
  lemma IdFromItemUrl(kind: Kind, n: nat)
    ensures IdFromUrl(kind, ItemUrl(kind, Num(n))) == Some(n)
  {
    var b := |Config.BASE_URL|;
    ItemUrlMatch(kind, n);
    ItemUrlNoEarlierMatch(kind, n);
    IdFromUrlSome(kind, ItemUrl(kind, Num(n)), b);
    ItemUrlCapture(kind, n);
  }

  /** An item URL is the base, the marker, then the digits of the id. */
  lemma ItemUrlParts(kind: Kind, n: nat)
    ensures ItemUrl(kind, Num(n)) == Config.BASE_URL + (Marker(kind) + NatToString(n))
  {
    var b, e, d := Config.BASE_URL, Endpoint(kind), NatToString(n);
    Sequences.AppendAssoc(b + e, "/", d);
    Sequences.AppendAssoc(b, e, "/" + d);
    Sequences.AppendAssoc(e, "/", d);
  }

  /** In an item URL the marker right after the base matches... */
  lemma ItemUrlMatch(kind: Kind, n: nat)
    ensures MatchAt(ItemUrl(kind, Num(n)), Marker(kind), |Config.BASE_URL|)
  {
    var m := Marker(kind);
    var digits := NatToString(n);
    var url := Config.BASE_URL + (m + digits);
    var b := |Config.BASE_URL|;
    ItemUrlParts(kind, n);
    assert url[b..b + |m|] == m;
    assert url[b + |m|] == digits[0];
  }

  /** ...and it is the leftmost match. */
  lemma ItemUrlNoEarlierMatch(kind: Kind, n: nat)
    ensures forall k :: 0 <= k < |Config.BASE_URL| ==> !MatchAt(ItemUrl(kind, Num(n)), Marker(kind), k)
  {
    ItemUrlParts(kind, n);
    NoMatchInBase(kind, Marker(kind) + NatToString(n));
  }

  /** The capture after the marker of an item URL reads the id. */
  lemma ItemUrlCapture(kind: Kind, n: nat)
    ensures Capture(ItemUrl(kind, Num(n)), |Config.BASE_URL| + |Marker(kind)|) == n
  {
    var m := Marker(kind);
    var digits := NatToString(n);
    var url := Config.BASE_URL + (m + digits);
    var j := |Config.BASE_URL| + |m|;
    ItemUrlParts(kind, n);
    assert url[j..] == digits;
    CaptureToEnd(url, j);
    ParseNatToString(n);
  }

  /** Filtering one element keeps it exactly when it is present. */
  lemma PresentCons(x: Option<nat>, xs: seq<Option<nat>>)
    ensures Present([x] + xs) == (if x.Some? then [x.value] else []) + Present(xs)
  {
    assert ([x] + xs)[1..] == xs;
  }

  /** Filtering keeps order: it distributes over concatenation. */
  lemma {:induction false} PresentAppend(xs: seq<Option<nat>>, ys: seq<Option<nat>>)
    ensures Present(xs + ys) == Present(xs) + Present(ys)
  {
    if xs == [] {
      assert xs + ys == ys;
    } else {
      var t := xs[1..];
      assert xs == [xs[0]] + t;
      assert xs + ys == [xs[0]] + (t + ys);
      PresentCons(xs[0], t + ys);
      PresentCons(xs[0], t);
      PresentAppend(t, ys);
    }
  }

  /** When nothing is null, filtering keeps every value in place. */
  lemma {:induction false} PresentAll(xs: seq<Option<nat>>)
    requires forall i :: 0 <= i < |xs| ==> xs[i].Some?
    ensures |Present(xs)| == |xs|
    ensures forall i :: 0 <= i < |xs| ==> Present(xs)[i] == xs[i].value
  {
    if xs != [] {
      PresentAll(xs[1..]);
    }
  }

  /** Every value that survives the filter was present in the input. */
  lemma {:induction false} PresentSound(xs: seq<Option<nat>>, i: nat)
    requires i < |Present(xs)|
    ensures exists j :: 0 <= j < |xs| && xs[j] == Some(Present(xs)[i])
  {
    var head := if xs[0].Some? then [xs[0].value] else [];
    assert Present(xs) == head + Present(xs[1..]);
    if i >= |head| {
      PresentSound(xs[1..], i - |head|);
      var j :| 0 <= j < |xs[1..]| && xs[1..][j] == Some(Present(xs[1..])[i - |head|]);
      assert xs[j + 1] == xs[1..][j];
    }
  }

  /** Extraction goes through a list of urls in order: it distributes over concatenation. */
  lemma IdsFromUrlsAppend(kind: Kind, a: seq<string>, b: seq<string>)
    ensures IdsFromUrls(kind, a + b) == IdsFromUrls(kind, a) + IdsFromUrls(kind, b)
  {
    assert Lookups(kind, a + b) == Lookups(kind, a) + Lookups(kind, b);
    PresentAppend(Lookups(kind, a), Lookups(kind, b));
  }

  /** A url without a match contributes nothing; a url with one contributes its id. */
  lemma IdsFromOneUrl(kind: Kind, url: string)
    ensures IdsFromUrls(kind, [url]) == if IdFromUrl(kind, url).Some? then [IdFromUrl(kind, url).value] else []
  {
    var xs := Lookups(kind, [url]);
    assert xs[1..] == [];
  }

  /** When every url carries an id, the result lists them position by position. */
  lemma IdsFromMatchingUrls(kind: Kind, urls: seq<string>)
    requires forall i :: 0 <= i < |urls| ==> IdFromUrl(kind, urls[i]).Some?
    ensures |IdsFromUrls(kind, urls)| == |urls|
    ensures forall i :: 0 <= i < |urls| ==> IdsFromUrls(kind, urls)[i] == IdFromUrl(kind, urls[i]).value
  {
    PresentAll(Lookups(kind, urls));
  }

  /** Every id in the result was read from some url of the input. */
  lemma IdsFromUrlsSound(kind: Kind, urls: seq<string>, i: nat)
    requires i < |IdsFromUrls(kind, urls)|
    ensures exists j :: 0 <= j < |urls| && IdFromUrl(kind, urls[j]) == Some(IdsFromUrls(kind, urls)[i])
  {
    PresentSound(Lookups(kind, urls), i);
  }

  /** The item URLs of a list of ids, in order. */
  function ItemUrls(kind: Kind, ids: seq<nat>): (r: seq<string>)
    ensures |r| == |ids|
    ensures forall i :: 0 <= i < |ids| ==> r[i] == ItemUrl(kind, Num(ids[i]))
  {
    if ids == [] then [] else [ItemUrl(kind, Num(ids[0]))] + ItemUrls(kind, ids[1..])
  }

  /** Extracting the ids of a list of item URLs gives back the ids, in order. */
  lemma IdsFromItemUrls(kind: Kind, ids: seq<nat>)
    ensures IdsFromUrls(kind, ItemUrls(kind, ids)) == ids
  {
    var urls := ItemUrls(kind, ids);
    forall i | 0 <= i < |urls|
      ensures IdFromUrl(kind, urls[i]) == Some(ids[i])
    {
      IdFromItemUrl(kind, ids[i]);
    }
    IdsFromMatchingUrls(kind, urls);
  }
}
