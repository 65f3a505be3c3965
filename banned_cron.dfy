/** The daily banned-IP job, BannedCoreCron: it asks each blocklist web service for
    its list, reads the local banned-IP file, merges both lists without repeats and
    appends the result to the file.  The file is read under one reading of its
    `preg_grep($this->sIpRegExp, $ban)`: preg_grep over the one-element list [line],
    which keeps the lines that hold an IPv4 address, whole (see `ExistingIps`).

    The I/O is replaced by values: the answer of each web service is a
    `FetchOutcome`, the banned-IP file is the sequence of its lines, and the log is
    the sequence of messages handed to the logger.  The functions first state what
    one run produces; the class then performs the run step by step, as the source
    does, and its methods are proved against those functions. */
module BannedCron {
  import opened IPv4Pattern
  import opened Dedup

  /** SVC_URLS, called in this order. */
  const SvcUrls: seq<string> := [
    "https://www.blocklist.de/downloads/export-ips_all.txt",
    "http://www.badips.com/get/list/ssh/2"
  ]

  /** ERROR_CALLING_WEB_SERVICE_MESSAGE up to its `%s`. */
  const ErrorCallingWebServicePrefix: string := "Error calling web service for banned IP URL name: "

  /** ERROR_ADD_BANNED_IP_MESSAGE. */
  const ErrorAddBannedIpMessage: string := "Error writing new banned IP file"

  /** The message logged for a failing web service:
      sprintf(ERROR_CALLING_WEB_SERVICE_MESSAGE, url).  It ends with the URL and is
      never the write-error message. */
  function WebServiceError(url: string): (m: string)
    ensures |m| >= |url| && m[|m| - |url|..] == url
    ensures m != ErrorAddBannedIpMessage
  {
    var m := ErrorCallingWebServicePrefix + url;
    assert ErrorCallingWebServicePrefix[6] == 'c' && ErrorAddBannedIpMessage[6] == 'w';
    assert m[6] == ErrorCallingWebServicePrefix[6];
    assert m[|m| - |url|..] == url;
    m
  }

  // ---------------------------------------------------------------------------
  // One web service

  /** What GET on one URL gives: a response with its status code and the lines
      fgets would read from its body (each with its line end), or an exception. */
  datatype FetchOutcome = Response(status: int, body: seq<string>) | Threw

  /** What callWebService does: return a boolean, or throw. */
  datatype CallResult = Returned(success: bool) | Raised

  predicate Fails(o: FetchOutcome) {
    o.Threw? || o.status != 200
  }

  /** PHP's truth value of a string: only "" and "0" are false. */
  predicate Truthy(line: string) {
    line != "" && line != "0"
  }

  predicate IsLineEnd(c: char) {
    c == '\n' || c == '\r'
  }

  /** rtrim(s, "\n\r"): remove every trailing line-end character, nothing else. */
  function RTrim(s: string): (r: string) {
    if s != [] && IsLineEnd(s[|s| - 1]) then RTrim(s[..|s| - 1]) else s
  }

  /** RTrim keeps a prefix, leaves no line end at its end, and what it removes is
      line ends only. */
  lemma {:induction false} RTrimRemovesLineEnds(s: string)
    ensures |RTrim(s)| <= |s| && RTrim(s) == s[..|RTrim(s)|]
    ensures RTrim(s) == [] || !IsLineEnd(RTrim(s)[|RTrim(s)| - 1])
    ensures forall k :: |RTrim(s)| <= k < |s| ==> IsLineEnd(s[k])
  {
    if s != [] && IsLineEnd(s[|s| - 1]) {
      var t := s[..|s| - 1];
      RTrimRemovesLineEnds(t);
      assert RTrim(s) == RTrim(t);
      assert t[..|RTrim(t)|] == s[..|RTrim(t)|];
    }
  }

  /** How many lines `while ($sBannedIp = fgets(...))` reads: it stops at the first
      line whose truth value is false. */
  function TruthyPrefix(body: seq<string>): (n: nat)
    ensures n <= |body|
    ensures forall k :: 0 <= k < n ==> Truthy(body[k])
    ensures n < |body| ==> !Truthy(body[n])
  {
    if body == [] || !Truthy(body[0]) then 0 else 1 + TruthyPrefix(body[1..])
  }

  /** The entries the read loop of callWebService appends to aNewIps: the lines
      before the first false one, each right-trimmed, in body order. */
  function ReadLines(body: seq<string>): (lines: seq<string>) {
    if body == [] || !Truthy(body[0]) then [] else [RTrim(body[0])] + ReadLines(body[1..])
  }

  /** The read loop keeps exactly the lines before the first false one, trimmed,
      in body order. */
  lemma {:induction false} ReadLinesSpec(body: seq<string>)
    ensures |ReadLines(body)| == TruthyPrefix(body)
    ensures forall k :: 0 <= k < |ReadLines(body)| ==> ReadLines(body)[k] == RTrim(body[k])
  {
    if body != [] && Truthy(body[0]) {
      ReadLinesSpec(body[1..]);
    }
  }

  /** What one web service adds to aNewIps. */
  function Contribution(o: FetchOutcome): (added: seq<string>) {
    if Fails(o) then [] else ReadLines(o.body)
  }

  /** What the calls to all the web services add to aNewIps, in call order. */
  function Collected(outcomes: seq<FetchOutcome>): (added: seq<string>) {
    if outcomes == [] then [] else Contribution(outcomes[0]) + Collected(outcomes[1..])
  }

  /** The messages the fetch loop of doProcess logs, in call order. */
  function FetchErrors(urls: seq<string>, outcomes: seq<FetchOutcome>): (messages: seq<string>)
    requires |urls| == |outcomes|
  {
    if outcomes == [] then []
    else
      (if Fails(outcomes[0]) then [WebServiceError(urls[0])] else [])
      + FetchErrors(urls[1..], outcomes[1..])
  }

  // ---------------------------------------------------------------------------
  // The banned-IP file

  /** preg_grep over a one-element list [line]: the line itself, whole, when the
      pattern matches somewhere in it. */
  function Grep(line: string, strict: bool): (found: seq<string>) {
    if Recognise(line, strict) then [line] else []
  }

  /** aOldIps after processExistingIP, under the modelled reading of line 197
      (preg_grep over [line]): the file lines that hold an address, each kept whole,
      in file order. */
  function ExistingIps(lines: seq<string>, strict: bool): (ips: seq<string>)
    ensures |ips| <= |lines|
  {
    if lines == [] then []
    else
      var n := |lines| - 1;
      assert lines == lines[..n] + [lines[n]];
      ExistingIps(lines[..n], strict) + Grep(lines[n], strict)
  }

  /** The text addIp writes for each entry, one element per file_put_contents. */
  function Appended(entries: seq<string>): (pieces: seq<string>) {
    seq(|entries|, k requires 0 <= k < |entries| => entries[k] + "\n")
  }

  /** Occurrences of m in a log. */
  function Count(log: seq<string>, m: string): (n: nat) {
    if log == [] then 0 else (if log[0] == m then 1 else 0) + Count(log[1..], m)
  }

  // ---------------------------------------------------------------------------
  // One run, as a whole

  /** The state a run leaves behind: aNewIps after processIP, the file and the log. */
  datatype RunState = RunState(merged: seq<string>, file: seq<string>, log: seq<string>)

  /** The whole job: the constructor with the lax pattern of regexpIP(). */
  function Run(initialFile: seq<string>, outcomes: seq<FetchOutcome>): (st: RunState)
    requires |outcomes| == |SvcUrls|
  {
    var merged := MergeIps(Collected(outcomes), ExistingIps(initialFile, false));
    RunState(
      merged,
      initialFile + Appended(merged),
      FetchErrors(SvcUrls, outcomes) + (if merged == [] then [ErrorAddBannedIpMessage] else []))
  }

  // ---------------------------------------------------------------------------
  // The job, step by step

  class BannedCoreCron {
    /** $aNewIps: the fetched entries, and after processIP the merged list. */
    var newIps: seq<string>
    /** $aOldIps: the entries taken from the banned-IP file. */
    var oldIps: seq<string>
    /** BANNED_IP_FILE_PATH: each element is one line as file() returns it, or
        one piece appended by addIp. */
    var file: seq<string>
    /** Every message handed to Logger::msg, in order. */
    var log: seq<string>
    /** $sIpRegExp: which of the two patterns of regexpIP is in use. */
    var ipRegExpStrict: bool

    /** The constructor runs the job once, with regexpIP() (the lax pattern). */
    constructor (initialFile: seq<string>, outcomes: seq<FetchOutcome>)
      requires |outcomes| == |SvcUrls|
      ensures !ipRegExpStrict && oldIps == ExistingIps(initialFile, false)
      ensures newIps == Run(initialFile, outcomes).merged
      ensures file == Run(initialFile, outcomes).file
      ensures log == Run(initialFile, outcomes).log
    {
      newIps, oldIps, file, log := [], [], initialFile, [];
      ipRegExpStrict := false;
      new;
      DoProcess(outcomes);
      assert [] + Collected(outcomes) == Collected(outcomes);
      assert [] + FetchErrors(SvcUrls, outcomes) == FetchErrors(SvcUrls, outcomes);
    }

    /** doProcess: every web service in SVC_URLS order, then the file, the merge
        and the write. */
    method DoProcess(outcomes: seq<FetchOutcome>)
      requires |outcomes| == |SvcUrls|
      modifies this`newIps, this`oldIps, this`file, this`log
      ensures oldIps == ExistingIps(old(file), ipRegExpStrict)
      ensures newIps == MergeIps(old(newIps) + Collected(outcomes), oldIps)
      ensures file == old(file) + Appended(newIps)
      ensures log == old(log) + FetchErrors(SvcUrls, outcomes)
                     + (if newIps == [] then [ErrorAddBannedIpMessage] else [])
    {
      CallWebServices(outcomes);
      ghost var fetchLog := log;
      ProcessExistingIp();
      ProcessIp();
      var ok := WriteIp();
      if !ok {
        log := log + [ErrorAddBannedIpMessage];
      }
      assert log == fetchLog + (if newIps == [] then [ErrorAddBannedIpMessage] else []);
    }

    /** The loop of doProcess over SVC_URLS: each call in its own try/catch, one
        message logged for each call that throws or returns false. */
    method CallWebServices(outcomes: seq<FetchOutcome>)
      requires |outcomes| == |SvcUrls|
      modifies this`newIps, this`log
      ensures newIps == old(newIps) + Collected(outcomes)
      ensures log == old(log) + FetchErrors(SvcUrls, outcomes)
    {
      var i := 0;
      while i < |SvcUrls|
        invariant 0 <= i <= |SvcUrls|
        invariant newIps == old(newIps) + Collected(outcomes[..i])
        invariant log == old(log) + FetchErrors(SvcUrls[..i], outcomes[..i])
      {
        var r := CallWebService(SvcUrls[i], outcomes[i]);
        if r == Raised || r == Returned(false) {
          log := log + [WebServiceError(SvcUrls[i])];
        }
        CollectedGrows(old(newIps), outcomes, i);
        FetchErrorsGrow(old(log), SvcUrls, outcomes, i);
        i := i + 1;
      }
      assert outcomes[..i] == outcomes && SvcUrls[..i] == SvcUrls;
    }

    /** callWebService: GET the URL (outcome is its answer); on status 200 append
        every line the read loop sees, right-trimmed, to aNewIps. */
    method CallWebService(url: string, outcome: FetchOutcome) returns (r: CallResult)
      modifies this`newIps
      ensures r == if outcome.Threw? then Raised else Returned(outcome.status == 200)
      ensures newIps == old(newIps) + Contribution(outcome)
    {
      match outcome
      case Threw =>
        r := Raised;
      case Response(status, body) =>
        if status != 200 {
          return Returned(false);
        }
        var i := 0;
        while i < |body| && Truthy(body[i])
          invariant 0 <= i <= TruthyPrefix(body)
          invariant |newIps| == |old(newIps)| + i
          invariant newIps[..|old(newIps)|] == old(newIps)
          invariant forall k :: 0 <= k < i ==> newIps[|old(newIps)| + k] == RTrim(body[k])
        {
          newIps := newIps + [RTrim(body[i])];
          i := i + 1;
        }
        ReadLinesSpec(body);
        assert newIps == old(newIps) + ReadLines(body);
        r := Returned(true);
    }

    /** processExistingIP: reset aOldIps and fill it from the file's lines. */
    method ProcessExistingIp()
      modifies this`oldIps
      ensures oldIps == ExistingIps(file, ipRegExpStrict)
    {
      oldIps := [];
      var i := 0;
      while i < |file|
        invariant 0 <= i <= |file|
        invariant oldIps == ExistingIps(file[..i], ipRegExpStrict)
      {
        var ips := Grep(file[i], ipRegExpStrict);
        oldIps := oldIps + ips;
        assert file[..i + 1][..i] == file[..i];
        i := i + 1;
      }
      assert file[..i] == file;
    }

    /** processIP. */
    method ProcessIp()
      modifies this`newIps
      ensures newIps == MergeIps(old(newIps), oldIps)
    {
      newIps := MergeIps(newIps, oldIps);
    }

    /** invalidNewIp: aNewIps is empty (it is always a list here). */
    predicate InvalidNewIp()
      reads this
    {
      newIps == []
    }

    /** writeIP: nothing when aNewIps is empty; otherwise addIp for every entry in
        order.  The file is only appended to. */
    method WriteIp() returns (ok: bool)
      modifies this`file
      ensures ok <==> newIps != []
      ensures file == old(file) + Appended(newIps)
    {
      if InvalidNewIp() {
        return false;
      }
      var i := 0;
      while i < |newIps|
        invariant 0 <= i <= |newIps|
        invariant file == old(file) + Appended(newIps[..i])
      {
        AddIp(newIps[i]);
        assert Appended(newIps[..i + 1]) == Appended(newIps[..i]) + [newIps[i] + "\n"];
        i := i + 1;
      }
      assert newIps[..i] == newIps;
      ok := true;
    }

    /** addIp: file_put_contents with FILE_APPEND. */
    method AddIp(ip: string)
      modifies this`file
      ensures file == old(file) + [ip + "\n"]
    {
      file := file + [ip + "\n"];
    }
  }

  // ---------------------------------------------------------------------------
  // Properties of one run

  /** One more web service called: what the fetch loop of doProcess has
      collected grows by that service's contribution. */
  lemma {:induction false} CollectedGrows(start: seq<string>, outcomes: seq<FetchOutcome>, i: nat)
    requires i < |outcomes|
    ensures start + Collected(outcomes[..i]) + Contribution(outcomes[i]) == start + Collected(outcomes[..i + 1])
  {
    CollectedStep(outcomes, i);
    assert start + Collected(outcomes[..i]) + Contribution(outcomes[i])
        == start + (Collected(outcomes[..i]) + Contribution(outcomes[i]));
  }

  /** One more web service called: the log grows by its message, if it failed. */
  lemma {:induction false} FetchErrorsGrow(start: seq<string>, urls: seq<string>, outcomes: seq<FetchOutcome>, i: nat)
    requires |urls| == |outcomes| && i < |outcomes|
    ensures start + FetchErrors(urls[..i], outcomes[..i])
              + (if Fails(outcomes[i]) then [WebServiceError(urls[i])] else [])
            == start + FetchErrors(urls[..i + 1], outcomes[..i + 1])
  {
    FetchErrorsStep(urls, outcomes, i);
    var m := if Fails(outcomes[i]) then [WebServiceError(urls[i])] else [];
    assert start + FetchErrors(urls[..i], outcomes[..i]) + m
        == start + (FetchErrors(urls[..i], outcomes[..i]) + m);
  }

  lemma {:induction false} CollectedSplit(a: seq<FetchOutcome>, b: seq<FetchOutcome>)
    ensures Collected(a + b) == Collected(a) + Collected(b)
  {
    if a == [] {
      assert a + b == b;
    } else {
      assert (a + b)[0] == a[0];
      assert (a + b)[1..] == a[1..] + b;
      CollectedSplit(a[1..], b);
      calc {
        Collected(a + b);
        Contribution(a[0]) + Collected(a[1..] + b);
        Contribution(a[0]) + (Collected(a[1..]) + Collected(b));
        (Contribution(a[0]) + Collected(a[1..])) + Collected(b);
      }
    }
  }

  lemma {:induction false} CollectedStep(outcomes: seq<FetchOutcome>, i: nat)
    requires i < |outcomes|
    ensures Collected(outcomes[..i + 1]) == Collected(outcomes[..i]) + Contribution(outcomes[i])
  {
    assert outcomes[..i + 1] == outcomes[..i] + [outcomes[i]];
    CollectedSplit(outcomes[..i], [outcomes[i]]);
    CollectedOne(outcomes[i]);
  }

  lemma {:induction false} FetchErrorsSplit(u: seq<string>, v: seq<string>, a: seq<FetchOutcome>, b: seq<FetchOutcome>)
    requires |u| == |a| && |v| == |b|
    ensures FetchErrors(u + v, a + b) == FetchErrors(u, a) + FetchErrors(v, b)
  {
    if a == [] {
      assert a + b == b && u + v == v;
    } else {
      assert (a + b)[0] == a[0] && (u + v)[0] == u[0];
      assert (a + b)[1..] == a[1..] + b;
      assert (u + v)[1..] == u[1..] + v;
      FetchErrorsSplit(u[1..], v, a[1..], b);
      var head := if Fails(a[0]) then [WebServiceError(u[0])] else [];
      calc {
        FetchErrors(u + v, a + b);
        head + FetchErrors(u[1..] + v, a[1..] + b);
        head + (FetchErrors(u[1..], a[1..]) + FetchErrors(v, b));
        (head + FetchErrors(u[1..], a[1..])) + FetchErrors(v, b);
      }
    }
  }

  lemma {:induction false} FetchErrorsStep(urls: seq<string>, outcomes: seq<FetchOutcome>, i: nat)
    requires |urls| == |outcomes| && i < |outcomes|
    ensures FetchErrors(urls[..i + 1], outcomes[..i + 1]) ==
      FetchErrors(urls[..i], outcomes[..i]) + (if Fails(outcomes[i]) then [WebServiceError(urls[i])] else [])
  {
    assert outcomes[..i + 1] == outcomes[..i] + [outcomes[i]];
    assert urls[..i + 1] == urls[..i] + [urls[i]];
    FetchErrorsSplit(urls[..i], [urls[i]], outcomes[..i], [outcomes[i]]);
    FetchErrorsOne(urls[i], outcomes[i]);
  }

  lemma {:induction false} CollectedOne(o: FetchOutcome)
    ensures Collected([o]) == Contribution(o)
  {
    assert Collected([o]) == Contribution(o) + Collected([]);
  }

  lemma {:induction false} FetchErrorsOne(url: string, o: FetchOutcome)
    ensures FetchErrors([url], [o]) == if Fails(o) then [WebServiceError(url)] else []
  {
    assert [o][1..] == [] && [url][1..] == [];
  }

  /** The run split around the i-th web service. */
  lemma {:induction false} SplitAround(urls: seq<string>, outcomes: seq<FetchOutcome>, i: nat)
    requires |urls| == |outcomes| && i < |outcomes|
    ensures Collected(outcomes) ==
      Collected(outcomes[..i]) + Contribution(outcomes[i]) + Collected(outcomes[i + 1..])
    ensures FetchErrors(urls, outcomes) ==
      FetchErrors(urls[..i], outcomes[..i])
      + (if Fails(outcomes[i]) then [WebServiceError(urls[i])] else [])
      + FetchErrors(urls[i + 1..], outcomes[i + 1..])
  {
    CollectedAround(outcomes, i);
    FetchErrorsAround(urls, outcomes, i);
  }

  lemma {:induction false} CollectedAround(outcomes: seq<FetchOutcome>, i: nat)
    requires i < |outcomes|
    ensures Collected(outcomes) ==
      Collected(outcomes[..i]) + Contribution(outcomes[i]) + Collected(outcomes[i + 1..])
  {
    var pre, o, post := outcomes[..i], outcomes[i], outcomes[i + 1..];
    assert outcomes == (pre + [o]) + post;
    CollectedSplit(pre + [o], post);
    CollectedSplit(pre, [o]);
    CollectedOne(o);
  }

  lemma {:induction false} FetchErrorsAround(urls: seq<string>, outcomes: seq<FetchOutcome>, i: nat)
    requires |urls| == |outcomes| && i < |outcomes|
    ensures FetchErrors(urls, outcomes) ==
      FetchErrors(urls[..i], outcomes[..i])
      + (if Fails(outcomes[i]) then [WebServiceError(urls[i])] else [])
      + FetchErrors(urls[i + 1..], outcomes[i + 1..])
  {
    var pre, o, post := outcomes[..i], outcomes[i], outcomes[i + 1..];
    var upre, u, upost := urls[..i], urls[i], urls[i + 1..];
    assert outcomes == (pre + [o]) + post;
    assert urls == (upre + [u]) + upost;
    FetchErrorsSplit(upre + [u], upost, pre + [o], post);
    FetchErrorsSplit(upre, [u], pre, [o]);
    FetchErrorsOne(u, o);
  }

  /** A failing web service (an exception or a status other than 200) logs exactly
      one message, naming its URL, adds nothing, and the services after it are
      still called and still contribute. */
  lemma {:induction false} FailingSourceDoesNotStopLaterOnes(urls: seq<string>, outcomes: seq<FetchOutcome>, i: nat)
    requires |urls| == |outcomes| && i < |outcomes| && Fails(outcomes[i])
    ensures Collected(outcomes) == Collected(outcomes[..i]) + Collected(outcomes[i + 1..])
    ensures FetchErrors(urls, outcomes) ==
      FetchErrors(urls[..i], outcomes[..i]) + [WebServiceError(urls[i])] + FetchErrors(urls[i + 1..], outcomes[i + 1..])
  {
    SplitAround(urls, outcomes, i);
    assert Collected(outcomes[..i]) + [] == Collected(outcomes[..i]);
  }

  /** A web service that answers 200 logs nothing and contributes its lines in place. */
  lemma {:induction false} SucceedingSourceLogsNothing(urls: seq<string>, outcomes: seq<FetchOutcome>, i: nat)
    requires |urls| == |outcomes| && i < |outcomes| && !Fails(outcomes[i])
    ensures Collected(outcomes) ==
      Collected(outcomes[..i]) + ReadLines(outcomes[i].body) + Collected(outcomes[i + 1..])
    ensures FetchErrors(urls, outcomes) ==
      FetchErrors(urls[..i], outcomes[..i]) + FetchErrors(urls[i + 1..], outcomes[i + 1..])
  {
    SplitAround(urls, outcomes, i);
    assert FetchErrors(urls[..i], outcomes[..i]) + [] == FetchErrors(urls[..i], outcomes[..i]);
  }

  /** No web-service message is the write-error message. */
  lemma {:induction false} FetchErrorsHoldNoWriteError(urls: seq<string>, outcomes: seq<FetchOutcome>)
    requires |urls| == |outcomes|
    ensures Count(FetchErrors(urls, outcomes), ErrorAddBannedIpMessage) == 0
  {
    if outcomes != [] {
      FetchErrorsHoldNoWriteError(urls[1..], outcomes[1..]);
      var head := if Fails(outcomes[0]) then [WebServiceError(urls[0])] else [];
      CountSplit(head, FetchErrors(urls[1..], outcomes[1..]), ErrorAddBannedIpMessage);
      assert Count(head, ErrorAddBannedIpMessage) == 0 by {
        if head != [] {
          assert head[1..] == [];
        }
      }
    }
  }

  lemma {:induction false} CountSplit(a: seq<string>, b: seq<string>, m: string)
    ensures Count(a + b, m) == Count(a, m) + Count(b, m)
  {
    if a == [] {
      assert a + b == b;
    } else {
      assert (a + b)[0] == a[0];
      assert (a + b)[1..] == a[1..] + b;
      CountSplit(a[1..], b, m);
    }
  }

  /** An empty merge result: the file is left as it was and the write error is
      logged exactly once, as the last message. */
  lemma {:induction false} EmptyMergeLogsOneWriteError(initialFile: seq<string>, outcomes: seq<FetchOutcome>)
    requires |outcomes| == |SvcUrls|
    requires Run(initialFile, outcomes).merged == []
    ensures Run(initialFile, outcomes).file == initialFile
    ensures Count(Run(initialFile, outcomes).log, ErrorAddBannedIpMessage) == 1
    ensures Run(initialFile, outcomes).log[|Run(initialFile, outcomes).log| - 1] == ErrorAddBannedIpMessage
  {
    FetchErrorsHoldNoWriteError(SvcUrls, outcomes);
    CountSplit(FetchErrors(SvcUrls, outcomes), [ErrorAddBannedIpMessage], ErrorAddBannedIpMessage);
    assert Count([ErrorAddBannedIpMessage][1..], ErrorAddBannedIpMessage) == 0;
  }

  /** A non-empty merge result: no write error, and the file is the old file with one
      line "entry\n" per merged entry after it, in merge order. */
  lemma {:induction false} NonEmptyMergeAppendsEveryEntry(initialFile: seq<string>, outcomes: seq<FetchOutcome>)
    requires |outcomes| == |SvcUrls|
    requires Run(initialFile, outcomes).merged != []
    ensures Count(Run(initialFile, outcomes).log, ErrorAddBannedIpMessage) == 0
    ensures Run(initialFile, outcomes).file[..|initialFile|] == initialFile
    ensures |Run(initialFile, outcomes).file| == |initialFile| + |Run(initialFile, outcomes).merged|
    ensures forall k :: 0 <= k < |Run(initialFile, outcomes).merged| ==>
      Run(initialFile, outcomes).file[|initialFile| + k] == Run(initialFile, outcomes).merged[k] + "\n"
  {
    FetchErrorsHoldNoWriteError(SvcUrls, outcomes);
    assert FetchErrors(SvcUrls, outcomes) + [] == FetchErrors(SvcUrls, outcomes);
  }

  /** The merge is empty exactly when no service gave a line and no file line holds
      an address. */
  lemma {:induction false} EmptyMergeIff(initialFile: seq<string>, outcomes: seq<FetchOutcome>)
    requires |outcomes| == |SvcUrls|
    ensures Run(initialFile, outcomes).merged == [] <==>
      Collected(outcomes) == [] && (forall line :: line in initialFile ==> !Matches(line, false))
  {
    MergeIpsProperties(Collected(outcomes), ExistingIps(initialFile, false));
    ExistingIpsMembership(initialFile, false);
    var existing := ExistingIps(initialFile, false);
    forall line | line in initialFile
      ensures line in existing <==> Matches(line, false)
    {
      RecogniseIsMatches(line, false);
    }
    if existing != [] {
      assert existing[0] in existing;
    }
  }

  /** The entries taken from the file are exactly its lines that the pattern
      recognises. */
  lemma {:induction false} ExistingIpsMembership(lines: seq<string>, strict: bool)
    ensures forall x :: x in ExistingIps(lines, strict) <==> x in lines && Recognise(x, strict)
  {
    if lines != [] {
      var n := |lines| - 1;
      assert lines == lines[..n] + [lines[n]];
      ExistingIpsMembership(lines[..n], strict);
    }
  }

  /** Every entry taken from the file is a whole line of it in which the pattern
      finds an address, and every such line is taken. */
  lemma {:induction false} ExistingIpsAreMatchingLines(lines: seq<string>, strict: bool)
    ensures forall x :: x in ExistingIps(lines, strict) <==> x in lines && Matches(x, strict)
  {
    ExistingIpsMembership(lines, strict);
    forall x | x in lines {
      RecogniseIsMatches(x, strict);
    }
  }

  /** The entries fetched from the web services have no line end left at their end. */
  lemma {:induction false} CollectedEntriesAreTrimmed(outcomes: seq<FetchOutcome>)
    ensures forall e :: e in Collected(outcomes) ==> e == [] || !IsLineEnd(e[|e| - 1])
  {
    if outcomes != [] {
      CollectedEntriesAreTrimmed(outcomes[1..]);
      if !Fails(outcomes[0]) {
        ReadLinesAreTrimmed(outcomes[0].body);
      }
    }
  }

  lemma {:induction false} ReadLinesAreTrimmed(body: seq<string>)
    ensures forall e :: e in ReadLines(body) ==> e == [] || !IsLineEnd(e[|e| - 1])
  {
    ReadLinesSpec(body);
    var lines := ReadLines(body);
    forall e | e in lines ensures e == [] || !IsLineEnd(e[|e| - 1]) {
      var k :| 0 <= k < |lines| && lines[k] == e;
      RTrimRemovesLineEnds(body[k]);
    }
  }

  /** The read loop reads every line when each one is true for PHP, which holds when
      each line keeps its newline. */
  lemma {:induction false} ReadLinesReadsAll(body: seq<string>)
    requires forall k :: 0 <= k < |body| ==> Truthy(body[k])
    ensures |ReadLines(body)| == |body|
  {
    ReadLinesSpec(body);
  }

  /** A last line "0" without a newline is false for PHP and ends the read loop: it is
      dropped. */
  lemma {:induction false} FinalZeroLineIsDropped(body: seq<string>)
    requires forall k :: 0 <= k < |body| ==> Truthy(body[k])
    ensures ReadLines(body + ["0"]) == ReadLines(body)
  {
    if body == [] {
      assert ReadLines(["0"]) == [];
    } else {
      var rest := body[1..];
      assert (body + ["0"])[0] == body[0] && Truthy(body[0]);
      assert (body + ["0"])[1..] == rest + ["0"];
      assert forall k :: 0 <= k < |rest| ==> Truthy(rest[k]) by {
        forall k | 0 <= k < |rest| ensures Truthy(rest[k]) {
          assert rest[k] == body[k + 1];
        }
      }
      FinalZeroLineIsDropped(rest);
      assert ReadLines(body + ["0"]) == [RTrim(body[0])] + ReadLines(rest + ["0"]);
    }
  }

  lemma {:induction false} TrimOneLine(ip: string)
    requires ip != [] && !IsLineEnd(ip[|ip| - 1])
    ensures ReadLines([ip + "\n"]) == [ip]
  {
    assert (ip + "\n")[..|ip|] == ip;
    assert RTrim(ip + "\n") == RTrim(ip) == ip;
    assert [ip + "\n"][1..] == [];
  }

  lemma {:induction false} SecondServiceOnly(failed: FetchOutcome, ip: string)
    requires Fails(failed) && ip != [] && !IsLineEnd(ip[|ip| - 1])
    ensures Collected([failed, Response(200, [ip + "\n"])]) == [ip]
    ensures FetchErrors(SvcUrls, [failed, Response(200, [ip + "\n"])]) == [WebServiceError(SvcUrls[0])]
  {
    var outcomes := [failed, Response(200, [ip + "\n"])];
    TrimOneLine(ip);
    assert outcomes[1..] == [Response(200, [ip + "\n"])] && outcomes[1..][1..] == [];
    assert Collected(outcomes[1..]) == [ip] + [];
    assert SvcUrls[1..][1..] == [];
    assert FetchErrors(SvcUrls[1..], outcomes[1..]) == [] + [];
  }

  /** A failing first service (an exception, or a status such as 500)
      and a second one that answers one address, on an empty file: the address is
      written, and only the first URL is reported. */
  lemma {:induction false} FirstServiceDownSecondServiceUp(failed: FetchOutcome, ip: string)
    requires Fails(failed) && ip != [] && !IsLineEnd(ip[|ip| - 1])
    ensures Run([], [failed, Response(200, [ip + "\n"])]) ==
      RunState([ip], [ip + "\n"], [WebServiceError(SvcUrls[0])])
  {
    var outcomes := [failed, Response(200, [ip + "\n"])];
    SecondServiceOnly(failed, ip);
    MergeOfOne(ip);
    assert ExistingIps([], false) == [];
    var merged := MergeIps(Collected(outcomes), ExistingIps([], false));
    assert merged == [ip];
    assert [] + Appended(merged) == [ip + "\n"];
    assert FetchErrors(SvcUrls, outcomes) + [] == [WebServiceError(SvcUrls[0])];
  }

  lemma {:induction false} MergeOfOne(ip: string)
    ensures MergeIps([ip], []) == [ip]
  {
    UniqueSnoc([], ip);
    assert [ip] + [] == [] + [ip] == [ip];
  }

  lemma {:induction false} Status500Example()
    ensures Run([], [Response(500, []), Response(200, ["1.1.1.1\n"])]) ==
      RunState(["1.1.1.1"], ["1.1.1.1\n"], [WebServiceError(SvcUrls[0])])
  {
    var ip := "1.1.1.1";
    assert ip + "\n" == "1.1.1.1\n";
    FirstServiceDownSecondServiceUp(Response(500, []), ip);
  }

  /** Under the modelled reading of the file (preg_grep over [line]) the whole merged
      list is appended, not only what is new: every line of the old file that holds
      an address is written again (with a second line end), so the file grows on
      every run even when nothing new arrives.  As the code is written, preg_grep is
      given a string instead: PHP 7 returns null, aOldIps stays empty and no old
      line is written again; PHP 8 throws a TypeError and nothing is written. */
  lemma {:induction false} OldEntriesAreAppendedAgain(initialFile: seq<string>, outcomes: seq<FetchOutcome>, line: string)
    requires |outcomes| == |SvcUrls|
    requires line in initialFile && Matches(line, false)
    ensures line + "\n" in Run(initialFile, outcomes).file[|initialFile|..]
  {
    RecogniseIsMatches(line, false);
    ExistingIpsMembership(initialFile, false);
    var merged := Run(initialFile, outcomes).merged;
    MergeIpsProperties(Collected(outcomes), ExistingIps(initialFile, false));
    var k :| 0 <= k < |merged| && merged[k] == line;
    assert Run(initialFile, outcomes).file[|initialFile|..] == Appended(merged);
    assert Appended(merged)[k] == line + "\n";
  }
}
