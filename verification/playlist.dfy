/** readPlaylist: turns the lines of a playlist file into tracks, dropping
    blank, duplicate and malformed lines and keeping first-seen order. */
module Playlist {
  import opened Text
  import opened Domain

  /** Splits artist from title. */
  const Separator := " - "

  /** A trimmed line as a track: artist before the first separator, the rest
      (separators included) as title; None when there is no separator. Go
      splits on every separator and joins all parts but the first back
      together, which comes to the same as cutting at the first one. */
  function ParseLine(line: string): (r: Option<Track>)
    ensures r.Some? <==> Contains(line, Separator)
    ensures Contains(line, Separator) ==>
      var m := Index(line, Separator);
      r == Some(Track(TrimSpace(line[..m]), TrimSpace(line[m + |Separator|..]), line))
    ensures r.Some? ==> r.value.raw == line && line != ""
  {
    var parts := Split(line, Separator);
    SplitAtFirst(line, Separator);
    if |parts| < 2 then None
    else Some(Track(TrimSpace(parts[0]), TrimSpace(Join(parts[1..], Separator)), line))
  }

  /** Every line with surrounding white space removed. */
  function Trimmed(lines: seq<string>): (r: seq<string>)
    ensures |r| == |lines|
    ensures forall k :: 0 <= k < |lines| ==> r[k] == TrimSpace(lines[k])
  {
    seq(|lines|, k requires 0 <= k < |lines| => TrimSpace(lines[k]))
  }

  /** The elements of `xs`, each kept at its first occurrence only. */
  function Dedup(xs: seq<string>): seq<string>
    decreases |xs|
  {
    if |xs| == 0 then []
    else
      var init := xs[..|xs| - 1];
      Dedup(init) + (if xs[|xs| - 1] in init then [] else [xs[|xs| - 1]])
  }

  /** The track a key contributes under the line parser `parse`. */
  function Emit(key: string, parse: string -> Option<Track>): seq<Track> {
    match parse(key)
    case Some(t) => [t]
    case None => []
  }

  /** The tracks of the keys that `parse` accepts, in order. The parser is a
      parameter so that the facts below hold for any parser that keeps the raw
      line; Parse instantiates it with ParseLine. */
  function TracksOf(keys: seq<string>, parse: string -> Option<Track>): seq<Track>
    decreases |keys|
  {
    if |keys| == 0 then [] else TracksOf(keys[..|keys| - 1], parse) + Emit(keys[|keys| - 1], parse)
  }

  lemma TracksOfSnoc(init: seq<string>, last: string, parse: string -> Option<Track>)
    ensures TracksOf(init + [last], parse) == TracksOf(init, parse) + Emit(last, parse)
  {
    assert (init + [last])[..|init|] == init;
  }

  lemma DedupSnoc(init: seq<string>, last: string)
    ensures Dedup(init + [last]) == Dedup(init) + (if last in init then [] else [last])
  {
    assert (init + [last])[..|init|] == init;
  }

  /** Reference definition of the parsed playlist: trim every line, keep the
      first occurrence of each, keep those with a separator. Blank lines never
      have a separator, so they need no rule of their own here. */
  function Parse(lines: seq<string>): seq<Track> {
    TracksOf(Dedup(Trimmed(lines)), ParseLine)
  }

  /** A parser whose tracks record the line they came from. */
  ghost predicate KeepsRaw(parse: string -> Option<Track>) {
    forall k :: parse(k).Some? ==> parse(k).value.raw == k
  }

  lemma ParseLineKeepsRawLine()
    ensures KeepsRaw(ParseLine)
  {
    forall k ensures ParseLine(k).Some? ==> ParseLine(k).value.raw == k {
    }
  }

  /** Position of the first occurrence of `x` in `xs`. */
  function FirstPos(xs: seq<string>, x: string): (p: nat)
    requires x in xs
    ensures p < |xs| && xs[p] == x && x !in xs[..p]
    decreases |xs|
  {
    var init := xs[..|xs| - 1];
    if x in init then
      var p := FirstPos(init, x);
      assert xs[..p] == init[..p];
      p
    else
      |xs| - 1
  }

  function Raws(ts: seq<Track>): (r: seq<string>)
    ensures |r| == |ts| && forall i :: 0 <= i < |ts| ==> r[i] == ts[i].raw
  {
    seq(|ts|, i requires 0 <= i < |ts| => ts[i].raw)
  }

  lemma RawsAppend(a: seq<Track>, b: seq<Track>)
    ensures Raws(a + b) == Raws(a) + Raws(b)
  {
  }

  /** `ys` lists elements of `xs` in the order of their first occurrence in `xs`. */
  predicate InFirstSeenOrder(xs: seq<string>, ys: seq<string>) {
    && (forall i :: 0 <= i < |ys| ==> ys[i] in xs)
    && (forall i, j :: 0 <= i < j < |ys| && ys[i] in xs && ys[j] in xs ==>
          FirstPos(xs, ys[i]) < FirstPos(xs, ys[j]))
  }

  predicate DistinctRaws(ts: seq<Track>) {
    forall i, j :: 0 <= i < j < |ts| ==> ts[i].raw != ts[j].raw
  }

  /** Every raw line is trimmed and `parse` turns it back into its track. */
  predicate Faithful(ts: seq<Track>, parse: string -> Option<Track>) {
    forall i :: 0 <= i < |ts| ==> TrimSpace(ts[i].raw) == ts[i].raw && parse(ts[i].raw) == Some(ts[i])
  }

  /** What every parsed track satisfies: its raw line is trimmed and parses back
      to the track itself, and no two tracks share a raw line. */
  predicate WellFormed(ts: seq<Track>) {
    DistinctRaws(ts) && Faithful(ts, ParseLine)
  }

  lemma FirstPosSnoc(xs: seq<string>, y: string, x: string)
    requires x in xs
    ensures FirstPos(xs + [y], x) == FirstPos(xs, x)
  {
    assert (xs + [y])[..|xs|] == xs;
  }

  /** Dedup keeps exactly the elements of `xs`, in first-seen order. */
  lemma {:induction false} DedupFirstSeen(xs: seq<string>)
    ensures forall x :: x in Dedup(xs) <==> x in xs
    ensures InFirstSeenOrder(xs, Dedup(xs))
    decreases |xs|
  {
    if |xs| > 0 {
      var init := xs[..|xs| - 1];
      var last := xs[|xs| - 1];
      assert xs == init + [last];
      DedupFirstSeen(init);
      var d := Dedup(xs);
      var d0 := Dedup(init);
      forall x | x in init ensures FirstPos(xs, x) == FirstPos(init, x) {
        FirstPosSnoc(init, last, x);
      }
      if last !in init {
        assert d == d0 + [last];
        assert FirstPos(xs, last) == |init|;
        forall i, j | 0 <= i < j < |d| ensures FirstPos(xs, d[i]) < FirstPos(xs, d[j]) {
          if j < |d0| {
            assert d[i] == d0[i] && d[j] == d0[j];
          } else {
            assert d[i] == d0[i] && d0[i] in init;
          }
        }
      } else {
        assert d == d0;
      }
    }
  }

  /** TracksOf keeps, in order, exactly the keys that parse. */
  lemma {:induction false} TracksOfFacts(keys: seq<string>, parse: string -> Option<Track>)
    requires KeepsRaw(parse)
    ensures forall i :: 0 <= i < |TracksOf(keys, parse)| ==>
      TracksOf(keys, parse)[i].raw in keys && parse(TracksOf(keys, parse)[i].raw) == Some(TracksOf(keys, parse)[i])
    ensures forall k :: k in keys && parse(k).Some? ==> k in Raws(TracksOf(keys, parse))
    decreases |keys|
  {
    if |keys| > 0 {
      var init := keys[..|keys| - 1];
      var last := keys[|keys| - 1];
      assert keys == init + [last];
      TracksOfFacts(init, parse);
      TracksOfSnoc(init, last, parse);
      var ts0 := TracksOf(init, parse);
      var ts := TracksOf(keys, parse);
      var e := Emit(last, parse);
      assert ts == ts0 + e;
      RawsAppend(ts0, e);
      forall k | k in keys && parse(k).Some? ensures k in Raws(ts) {
        if k != last {
          assert k in init;
          assert k in Raws(ts0);
        } else {
          assert Raws(e) == [last];
        }
      }
    }
  }

  /** Appending the last key to an ordered selection of the earlier keys keeps
      it ordered. */
  lemma AppendKeepsOrder(xs: seq<string>, ys: seq<string>, init: seq<string>, last: string)
    requires InFirstSeenOrder(xs, ys) && InFirstSeenOrder(xs, init + [last])
    requires forall i :: 0 <= i < |ys| ==> ys[i] in init
    ensures InFirstSeenOrder(xs, ys + [last])
  {
    var keys := init + [last];
    var rs := ys + [last];
    assert keys[|keys| - 1] == last;
    assert forall i :: 0 <= i < |rs| ==> rs[i] in xs by {
      forall i | 0 <= i < |rs| ensures rs[i] in xs {
        if i < |ys| { assert rs[i] == ys[i]; }
      }
    }
    forall i, j | 0 <= i < j < |rs| && rs[i] in xs && rs[j] in xs
      ensures FirstPos(xs, rs[i]) < FirstPos(xs, rs[j])
    {
      assert rs[i] == ys[i];
      if j < |ys| {
        assert rs[j] == ys[j];
      } else {
        var p :| 0 <= p < |init| && init[p] == ys[i];
        assert keys[p] == rs[i] && keys[|keys| - 1] == rs[j];
      }
    }
  }

  /** One key more keeps the tracks in first-seen order. */
  lemma TracksOfKeepsOrderStep(xs: seq<string>, init: seq<string>, last: string, parse: string -> Option<Track>)
    requires KeepsRaw(parse)
    requires InFirstSeenOrder(xs, init + [last])
    requires InFirstSeenOrder(xs, Raws(TracksOf(init, parse)))
    ensures InFirstSeenOrder(xs, Raws(TracksOf(init + [last], parse)))
  {
    TracksOfFacts(init, parse);
    TracksOfSnoc(init, last, parse);
    var ts0 := TracksOf(init, parse);
    var e := Emit(last, parse);
    RawsAppend(ts0, e);
    if e != [] {
      assert Raws(e) == [last];
      AppendKeepsOrder(xs, Raws(ts0), init, last);
    }
  }

  /** TracksOf preserves the first-seen order of its keys. */
  lemma {:induction false} TracksOfKeepsOrder(xs: seq<string>, keys: seq<string>, parse: string -> Option<Track>)
    requires KeepsRaw(parse)
    requires InFirstSeenOrder(xs, keys)
    ensures InFirstSeenOrder(xs, Raws(TracksOf(keys, parse)))
    decreases |keys|
  {
    if |keys| > 0 {
      var init := keys[..|keys| - 1];
      var last := keys[|keys| - 1];
      assert keys == init + [last];
      assert InFirstSeenOrder(xs, init);
      TracksOfKeepsOrder(xs, init, parse);
      TracksOfKeepsOrderStep(xs, init, last, parse);
    }
  }

  /** Tracks come out in the order their raw lines first appear in the file,
      so no raw line is repeated. */
  lemma ParseFirstSeenOrder(lines: seq<string>)
    ensures InFirstSeenOrder(Trimmed(lines), Raws(Parse(lines)))
    ensures DistinctRaws(Parse(lines))
  {
    DedupFirstSeen(Trimmed(lines));
    ParseLineKeepsRawLine();
    TracksOfKeepsOrder(Trimmed(lines), Dedup(Trimmed(lines)), ParseLine);
    var rs := Raws(Parse(lines));
    forall i, j | 0 <= i < j < |rs| ensures rs[i] != rs[j] {
      assert FirstPos(Trimmed(lines), rs[i]) < FirstPos(Trimmed(lines), rs[j]);
    }
  }

  /** Every parsed track is the parse of some trimmed line of the file, and
      every trimmed line containing the separator yields a track. */
  lemma ParseSoundAndComplete(lines: seq<string>)
    ensures forall i :: 0 <= i < |Parse(lines)| ==>
      Parse(lines)[i].raw in Trimmed(lines) && ParseLine(Parse(lines)[i].raw) == Some(Parse(lines)[i])
    ensures forall k :: 0 <= k < |lines| && Contains(TrimSpace(lines[k]), Separator) ==>
      TrimSpace(lines[k]) in Raws(Parse(lines))
  {
    var t := Trimmed(lines);
    DedupFirstSeen(t);
    ParseLineKeepsRawLine();
    TracksOfFacts(Dedup(t), ParseLine);
    forall k | 0 <= k < |lines| && Contains(TrimSpace(lines[k]), Separator)
      ensures TrimSpace(lines[k]) in Raws(Parse(lines))
    {
      assert t[k] in t;
    }
  }

  /** The parsed playlist is well formed. */
  lemma ParseWellFormed(lines: seq<string>)
    ensures WellFormed(Parse(lines))
  {
    ParseFirstSeenOrder(lines);
    ParseSoundAndComplete(lines);
    var ts := Parse(lines);
    forall i | 0 <= i < |ts| ensures TrimSpace(ts[i].raw) == ts[i].raw {
      var k :| 0 <= k < |lines| && Trimmed(lines)[k] == ts[i].raw;
      TrimSpaceIdempotent(lines[k]);
    }
  }

  lemma {:induction false} DedupDistinct(xs: seq<string>)
    requires forall i, j :: 0 <= i < j < |xs| ==> xs[i] != xs[j]
    ensures Dedup(xs) == xs
    decreases |xs|
  {
    if |xs| > 0 {
      var init := xs[..|xs| - 1];
      DedupDistinct(init);
      assert xs[|xs| - 1] !in init;
      assert xs == init + [xs[|xs| - 1]];
    }
  }

  lemma {:induction false} TracksOfRaws(ts: seq<Track>, parse: string -> Option<Track>)
    requires forall i :: 0 <= i < |ts| ==> parse(ts[i].raw) == Some(ts[i])
    ensures TracksOf(Raws(ts), parse) == ts
    decreases |ts|
  {
    if |ts| > 0 {
      var init := ts[..|ts| - 1];
      var last := ts[|ts| - 1];
      TracksOfRaws(init, parse);
      assert Raws(ts) == Raws(init) + [last.raw];
      TracksOfSnoc(Raws(init), last.raw, parse);
      assert ts == init + [last];
    }
  }

  /** Writing well-formed tracks out one raw line each and reading the result
      back as a playlist gives the same tracks: a failure log is a valid
      playlist for a later run. */
  lemma ReparseRaws(ts: seq<Track>)
    requires WellFormed(ts)
    ensures Parse(Raws(ts)) == ts
  {
    assert Trimmed(Raws(ts)) == Raws(ts);
    DedupDistinct(Raws(ts));
    TracksOfRaws(ts, ParseLine);
  }

  /** A track whose raw line is, once trimmed, some line of a file is among
      that file's tracks. */
  lemma FoundByRaw(lines: seq<string>, k: nat, t: Track)
    requires k < |lines| && TrimSpace(lines[k]) == t.raw && ParseLine(t.raw) == Some(t)
    ensures t in Parse(lines)
  {
    ParseSoundAndComplete(lines);
    var ts := Parse(lines);
    assert t.raw in Raws(ts);
    var j :| 0 <= j < |ts| && Raws(ts)[j] == t.raw;
    assert ParseLine(ts[j].raw) == Some(ts[j]);
  }

  lemma ReadBackHasOld(prior: seq<string>, ts: seq<Track>, t: Track)
    requires t in Parse(prior)
    ensures t in Parse(prior + Raws(ts))
  {
    ParseSoundAndComplete(prior);
    var k :| 0 <= k < |prior| && Trimmed(prior)[k] == t.raw;
    assert (prior + Raws(ts))[k] == prior[k];
    FoundByRaw(prior + Raws(ts), k, t);
  }

  lemma ReadBackHasNew(prior: seq<string>, ts: seq<Track>, t: Track)
    requires WellFormed(ts) && t in ts
    ensures t in Parse(prior + Raws(ts))
  {
    var i :| 0 <= i < |ts| && ts[i] == t;
    assert (prior + Raws(ts))[|prior| + i] == t.raw;
    FoundByRaw(prior + Raws(ts), |prior| + i, t);
  }

  /** A parsed track comes from a trimmed line of the file. */
  lemma ParsedFromLine(lines: seq<string>, t: Track)
    requires t in Parse(lines)
    ensures t.raw in Trimmed(lines) && ParseLine(t.raw) == Some(t)
  {
    ParseSoundAndComplete(lines);
  }

  lemma ReadBackFromEither(prior: seq<string>, ts: seq<Track>, t: Track)
    requires WellFormed(ts) && t in Parse(prior + Raws(ts))
    ensures t in Parse(prior) || t in ts
  {
    var lines := prior + Raws(ts);
    ParsedFromLine(lines, t);
    var k :| 0 <= k < |lines| && Trimmed(lines)[k] == t.raw;
    if k < |prior| {
      assert lines[k] == prior[k];
      FoundByRaw(prior, k, t);
    } else {
      ReadBackFromAppended(prior, ts, t, k, ParseLine);
    }
  }

  lemma ReadBackFromAppended(prior: seq<string>, ts: seq<Track>, t: Track, k: nat, parse: string -> Option<Track>)
    requires Faithful(ts, parse)
    requires |prior| <= k < |prior| + |ts|
    requires TrimSpace((prior + Raws(ts))[k]) == t.raw && parse(t.raw) == Some(t)
    ensures t in ts
  {
    var i := k - |prior|;
    assert (prior + Raws(ts))[k] == ts[i].raw;
    assert parse(ts[i].raw) == Some(ts[i]);
  }

  /** Appending the raw lines of well-formed tracks to any playlist file and
      reading it back gives exactly the file's earlier tracks and the appended
      ones: none is lost, and nothing else appears. */
  lemma ReadBackAppended(prior: seq<string>, ts: seq<Track>)
    requires WellFormed(ts)
    ensures forall t :: t in Parse(prior + Raws(ts)) <==> t in Parse(prior) || t in ts
  {
    forall t ensures t in Parse(prior + Raws(ts)) <==> t in Parse(prior) || t in ts {
      if t in Parse(prior + Raws(ts)) {
        ReadBackFromEither(prior, ts, t);
      }
      if t in Parse(prior) {
        ReadBackHasOld(prior, ts, t);
      }
      if t in ts {
        ReadBackHasNew(prior, ts, t);
      }
    }
  }

  lemma TrimmedAppend(prior: seq<string>, ts: seq<Track>)
    requires forall i :: 0 <= i < |ts| ==> TrimSpace(ts[i].raw) == ts[i].raw
    ensures Trimmed(prior + Raws(ts)) == Trimmed(prior) + Raws(ts)
  {
    var a := Trimmed(prior + Raws(ts));
    var b := Trimmed(prior) + Raws(ts);
    forall i | 0 <= i < |a| ensures a[i] == b[i] {
      if i < |prior| {
        assert (prior + Raws(ts))[i] == prior[i];
      } else {
        assert (prior + Raws(ts))[i] == ts[i - |prior|].raw;
      }
    }
  }

  /** Keys that are new and distinct all survive Dedup, after the prior ones. */
  lemma {:induction false} DedupAppendFresh(xs: seq<string>, ys: seq<string>)
    requires forall i, j :: 0 <= i < j < |ys| ==> ys[i] != ys[j]
    requires forall i :: 0 <= i < |ys| ==> ys[i] !in xs
    ensures Dedup(xs + ys) == Dedup(xs) + ys
    decreases |ys|
  {
    if |ys| > 0 {
      var init := ys[..|ys| - 1];
      var last := ys[|ys| - 1];
      DedupAppendFresh(xs, init);
      assert xs + ys == (xs + init) + [last];
      assert last !in xs + init;
      DedupSnoc(xs + init, last);
      assert ys == init + [last];
    } else {
      assert xs + ys == xs;
    }
  }

  lemma TracksOfSnocOf(keys: seq<string>, init: seq<string>, last: string, parse: string -> Option<Track>)
    requires keys == init + [last]
    ensures TracksOf(keys, parse) == TracksOf(init, parse) + Emit(last, parse)
  {
    TracksOfSnoc(init, last, parse);
  }

  lemma TracksOfAppendStep(a: seq<string>, init: seq<string>, last: string, parse: string -> Option<Track>)
    requires TracksOf(a + init, parse) == TracksOf(a, parse) + TracksOf(init, parse)
    ensures TracksOf(a + (init + [last]), parse) == TracksOf(a, parse) + TracksOf(init + [last], parse)
  {
    var c, d := a + init, init + [last];
    TracksOfSnocOf(a + d, c, last, parse);
    TracksOfSnocOf(d, init, last, parse);
    TracksAssoc(TracksOf(a, parse), TracksOf(init, parse), Emit(last, parse));
  }

  lemma TracksAssoc(x: seq<Track>, y: seq<Track>, z: seq<Track>)
    ensures (x + y) + z == x + (y + z)
  {
  }

  lemma {:induction false} TracksOfAppend(a: seq<string>, b: seq<string>, parse: string -> Option<Track>)
    ensures TracksOf(a + b, parse) == TracksOf(a, parse) + TracksOf(b, parse)
    decreases |b|
  {
    if |b| > 0 {
      var init := b[..|b| - 1];
      TracksOfAppend(a, init, parse);
      TracksOfAppendStep(a, init, b[|b| - 1], parse);
      assert b == init + [b[|b| - 1]];
    } else {
      assert a + b == a;
    }
  }

  /** When none of the appended lines was already in the file, reading it back
      gives the file's earlier tracks followed by the appended ones, in order. */
  lemma ReadBackAppendedFresh(prior: seq<string>, ts: seq<Track>)
    requires WellFormed(ts)
    requires forall i :: 0 <= i < |ts| ==> ts[i].raw !in Trimmed(prior)
    ensures Parse(prior + Raws(ts)) == Parse(prior) + ts
  {
    TrimmedAppend(prior, ts);
    DedupAppendFresh(Trimmed(prior), Raws(ts));
    TracksOfAppend(Dedup(Trimmed(prior)), Raws(ts), ParseLine);
    TracksOfRaws(ts, ParseLine);
  }

  lemma TrimmedSnoc(lines: seq<string>, k: nat)
    requires k < |lines|
    ensures Trimmed(lines[..k + 1]) == Trimmed(lines[..k]) + [TrimSpace(lines[k])]
  {
    var a := Trimmed(lines[..k + 1]);
    var b := Trimmed(lines[..k]) + [TrimSpace(lines[k])];
    forall i | 0 <= i < |a| ensures a[i] == b[i] {
      if i < k {
        assert lines[..k + 1][i] == lines[..k][i];
      }
    }
  }

  /** Reading one more line extends the parsed playlist by that line's track,
      unless the line was seen before. */
  lemma ParseSnoc(lines: seq<string>, k: nat)
    requires k < |lines|
    ensures var line := TrimSpace(lines[k]);
      Parse(lines[..k + 1]) == Parse(lines[..k]) + (if line in Trimmed(lines[..k]) then [] else Emit(line, ParseLine))
  {
    var line := TrimSpace(lines[k]);
    var before := Trimmed(lines[..k]);
    TrimmedSnoc(lines, k);
    DedupSnoc(before, line);
    if line !in before {
      TracksOfSnoc(Dedup(before), line, ParseLine);
      assert Parse(lines[..k + 1]) == TracksOf(Dedup(before) + [line], ParseLine);
    } else {
      assert Dedup(before + [line]) == Dedup(before);
    }
  }

  /** The non-blank strings among `xs`. */
  function NonBlank(xs: seq<string>): set<string> {
    set x | x in xs && x != ""
  }

  lemma NonBlankSnoc(xs: seq<string>, x: string)
    ensures NonBlank(xs + [x]) == NonBlank(xs) + (if x == "" then {} else {x})
  {
  }

  /** What readPlaylist has accumulated after reading the first k lines: the
      non-blank trimmed lines seen so far, and the tracks parsed so far. */
  predicate ReadSoFar(lines: seq<string>, k: nat, seen: set<string>, tracks: seq<Track>)
    requires k <= |lines|
  {
    seen == NonBlank(Trimmed(lines[..k])) && tracks == Parse(lines[..k])
  }

  /** One iteration of readPlaylist's loop keeps ReadSoFar: a blank or already
      seen line changes nothing; any other line is marked seen, and adds its
      track when it parses. */
  lemma ReadStep(lines: seq<string>, k: nat, seen: set<string>, tracks: seq<Track>)
    requires k < |lines| && ReadSoFar(lines, k, seen, tracks)
    ensures var line := TrimSpace(lines[k]);
      if line == "" || line in seen then ReadSoFar(lines, k + 1, seen, tracks)
      else ReadSoFar(lines, k + 1, seen + {line}, tracks + Emit(line, ParseLine))
  {
    var line := TrimSpace(lines[k]);
    var before := Trimmed(lines[..k]);
    ParseSnoc(lines, k);
    TrimmedSnoc(lines, k);
    NonBlankSnoc(before, line);
    if line == "" {
      assert Emit(line, ParseLine) == [];
    }
  }

  /** readPlaylist's single pass with a set of lines already seen. */
  method ReadPlaylist(lines: seq<string>) returns (tracks: seq<Track>)
    ensures tracks == Parse(lines)
    ensures WellFormed(tracks)
  {
    tracks := [];
    var seen: set<string> := {};
    var k := 0;
    assert lines[..0] == [];
    while k < |lines|
      invariant 0 <= k <= |lines|
      invariant ReadSoFar(lines, k, seen, tracks)
    {
      var line := TrimSpace(lines[k]);
      ReadStep(lines, k, seen, tracks);
      if line != "" && line !in seen {
        seen := seen + {line};
        match ParseLine(line)
        case Some(t) =>
          tracks := tracks + [t];
        case None =>
      }
      k := k + 1;
    }
    assert lines[..k] == lines;
    ParseWellFormed(lines);
  }

  /** The track of a line whose first separator sits at position `m`. */
  lemma ParseLineWithSeparatorAt(line: string, m: nat)
    requires OccursAt(line, Separator, m)
    requires forall j: nat :: j < m ==> !OccursAt(line, Separator, j)
    ensures ParseLine(line) == Some(Track(TrimSpace(line[..m]), TrimSpace(line[m + |Separator|..]), line))
  {
    IndexIsFirst(line, Separator, m);
  }

  /** After a one-character artist the first separator is at position 1. */
  lemma SeparatorAfterOneChar(a: char, title: string)
    requires a != ' '
    ensures OccursAt([a] + Separator + title, Separator, 1)
    ensures forall j: nat :: j < 1 ==> !OccursAt([a] + Separator + title, Separator, j)
    ensures ([a] + Separator + title)[..1] == [a]
    ensures ([a] + Separator + title)[1 + |Separator|..] == title
  {
    var line := [a] + Separator + title;
    assert line[1..4] == Separator;
    assert line[0] != Separator[0];
    assert !OccursAt(line, Separator, 0);
  }

  /** A line with a one-character artist followed by the separator. */
  lemma ParseShortArtist(line: string, a: char, title: string)
    requires line == [a] + Separator + title && !IsSpace(a)
    ensures ParseLine(line) == Some(Track([a], TrimSpace(title), line))
  {
    SeparatorAfterOneChar(a, title);
    TrimSpaceFixed([a]);
    ParseLineWithSeparatorAt(line, 1);
  }

  /** Lines that are already trimmed are left as they are. */
  lemma TrimmedFixed(lines: seq<string>)
    requires forall k :: 0 <= k < |lines| ==> TrimSpace(lines[k]) == lines[k]
    ensures Trimmed(lines) == lines
  {
  }

  /** A repeated key is kept once. */
  lemma DedupRepeat(x: string, y: string, z: string)
    requires x != y && x != z && y != z
    ensures Dedup([x, x, y, z]) == [x, y, z]
  {
    assert Dedup([x]) == [x] by {
      DedupSnoc([], x);
      assert [x] == [] + [x];
    }
    assert Dedup([x, x]) == [x] by {
      DedupSnoc([x], x);
      assert [x, x] == [x] + [x];
    }
    assert Dedup([x, x, y]) == [x, y] by {
      DedupSnoc([x, x], y);
      assert [x, x, y] == [x, x] + [y];
    }
    DedupSnoc([x, x, y], z);
    assert [x, x, y, z] == [x, x, y] + [z];
  }

  /** A key the parser rejects adds no track. */
  lemma TracksOfRejected(x: string, y: string, z: string, tx: Track, ty: Track, parse: string -> Option<Track>)
    requires parse(x) == Some(tx) && parse(y) == Some(ty) && parse(z) == None
    ensures TracksOf([x, y, z], parse) == [tx, ty]
  {
    TracksOfSnoc([], x, parse);
    TracksOfSnoc([x], y, parse);
    TracksOfSnoc([x, y], z, parse);
    assert [x, y, z] == [x, y] + [z];
    assert [x, y] == [x] + [y];
    assert [x] == [] + [x];
  }

  lemma TrimmedFourLines(lines: seq<string>, x: string, y: string, blank: string)
    requires lines == [x, x, y, blank]
    ensures Trimmed(lines) == [TrimSpace(x), TrimSpace(x), TrimSpace(y), TrimSpace(blank)]
  {
  }

  lemma TrimmedFour(lines: seq<string>, x: string, y: string, blank: string)
    requires lines == [x, x, y, blank]
    requires TrimSpace(x) == x && TrimSpace(y) == y
    ensures Trimmed(lines) == [x, x, y, TrimSpace(blank)]
  {
    TrimmedFourLines(lines, x, y, blank);
  }

  /** A playlist of a line, the same line again, a second line and a blank
      line gives the tracks of the two lines, once each and in file order. */
  lemma DuplicateAndBlankDropped(lines: seq<string>, x: string, y: string, blank: string, tx: Track, ty: Track)
    requires lines == [x, x, y, blank] && x != y
    requires TrimSpace(x) == x && TrimSpace(y) == y && TrimSpace(blank) == ""
    requires ParseLine(x) == Some(tx) && ParseLine(y) == Some(ty)
    ensures Parse(lines) == [tx, ty]
  {
    var e := TrimSpace(blank);
    TrimmedFour(lines, x, y, blank);
    DedupRepeat(x, y, e);
    TracksOfRejected(x, y, e, tx, ty, ParseLine);
  }

  /** The lines of the example playlist below, with each string spelled out
      from its characters (the form the parsing lemmas above work with). */
  lemma ShortArtistPlaylist(lines: seq<string>, ab: string, cde: string)
    requires ab == ['A'] + Separator + ['B']
    requires cde == ['C'] + Separator + ['D'] + Separator + ['E']
    requires lines == [ab, ab, cde, []]
    ensures Parse(lines) == [Track(['A'], ['B'], ab), Track(['C'], ['D'] + Separator + ['E'], cde)]
  {
    var de := ['D'] + Separator + ['E'];
    assert cde == ['C'] + Separator + de;
    assert |ab| == 5 && |cde| == 9;
    TrimSpaceFixed(['B']);
    TrimSpaceFixed(de);
    TrimSpaceFixed(ab);
    TrimSpaceFixed(cde);
    TrimSpaceFixed([]);
    ParseShortArtist(ab, 'A', ['B']);
    ParseShortArtist(cde, 'C', de);
    DuplicateAndBlankDropped(lines, ab, cde, [], Track(['A'], ['B'], ab), Track(['C'], de, cde));
  }

  /** The example playlist "A - B", "A - B", "C - D - E", "": the duplicate and
      the blank line are dropped, and the second title keeps its inner separator.
      Proving it straight from the literals is too costly for the verifier, so
      the proof goes through ShortArtistPlaylist. */
  lemma ExamplePlaylist()
    ensures Parse(["A - B", "A - B", "C - D - E", ""]) == [Track("A", "B", "A - B"), Track("C", "D - E", "C - D - E")]
  {
    var ab, cde, de := "A - B", "C - D - E", "D - E";
    assert ab == ['A'] + Separator + ['B'];
    assert de == ['D'] + Separator + ['E'];
    assert cde == ['C'] + Separator + de;
    assert "A" == ['A'] && "B" == ['B'] && "C" == ['C'];
    ShortArtistPlaylist(["A - B", "A - B", "C - D - E", ""], ab, cde);
  }
}
