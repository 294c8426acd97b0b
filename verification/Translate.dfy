/**
 The dialogue with the translation server: every answer may make the request handler ask
 again.  Counters stop a server that never comes to a conclusion, but two of them are reset
 on the way.
 */
module Translate {
  import opened Octets

  const SLASH: Byte := 0x2f

  /** One answer of the translation server, along with what the file system says about the addresses in it. */
  datatype Answer = Answer(
    stop: bool,             // answered at once: an error, a redirect, a refusal
    check: bool, layout: bool, internalRedirect: bool, likeHost: bool,
    want: bool,             // WANT, WANT_FULL_URI, or a user who has just logged in
    malformed: bool,        // a base mismatch, or WANT/LISTENER_TAG
    previous: bool,
    readFile: bool, pathExists: bool, local: bool, probe: bool,
    testPath: bool, hasPath: bool,
    enotdir: bool, notDir: bool,
    fileNotFound: bool, missing: bool,
    directoryIndex: bool, isDir: bool,
    chain: bool, breakChain: bool, hasAddress: bool,
    reached: bool)          // the final response gets as far as the CHAIN request

  datatype Saved = NoAnswer | Saved(answer: Answer)

  /** What the handler does next: it is done, or it sends a translation request of either kind. */
  datatype Next = Stop | Submit | Chain

  // The path that shrinks

  /** The last slash before `end`, or -1. */
  function LastSlash(uri: Bytes, end: nat): (k: int)
    requires end <= |uri|
    ensures -1 <= k < end
    ensures k >= 0 ==> uri[k] == SLASH
    ensures SLASH !in uri[k + 1..end]
  {
    if end == 0 then -1 else if uri[end - 1] == SLASH then end - 1 else LastSlash(uri, end - 1)
  }

  /** The number of slashes before `end`, not counting the one that an URI starts with. */
  function Slashes(uri: Bytes, end: nat): nat
    requires end <= |uri|
  {
    if end <= 1 then 0 else Slashes(uri, end - 1) + if uri[end - 1] == SLASH then 1 else 0
  }

  lemma {:induction false} OneSlashLess(uri: Bytes, end: nat)
    requires end <= |uri| && LastSlash(uri, end) > 0
    ensures Slashes(uri, LastSlash(uri, end)) == Slashes(uri, end) - 1
  {
    if uri[end - 1] != SLASH {
      OneSlashLess(uri, end - 1);
    }
  }

  // What an answer asks for

  predicate Repeats(a: Answer) {
    a.check || a.layout || a.internalRedirect || a.likeHost || a.want
  }

  predicate Counted(a: Answer) {
    a.check || a.layout || a.internalRedirect || a.likeHost
  }

  /** A request to ask again that no counter limits. */
  predicate Uncounted(a: Answer) {
    a.want && !Counted(a)
  }

  function CountUncounted(answers: seq<Answer>): nat {
    if answers == [] then 0 else
    CountUncounted(answers[..|answers| - 1]) + if Uncounted(answers[|answers| - 1]) then 1 else 0
  }

  function Add(n: nat, b: bool): nat {
    if b then n + 1 else n
  }

  // Which budget pays for the next request

  datatype Payer = ReadFile | PathExists | Probe | Enotdir | FileNotFound | DirectoryIndex | ChainPayer | Nobody

  function LastPayer(a: Answer): Payer {
    if a.directoryIndex && !a.local && !a.testPath then Nobody
    else if a.directoryIndex && a.isDir then DirectoryIndex
    else if a.chain then ChainPayer
    else Nobody
  }

  function NotFoundPayer(a: Answer): Payer {
    if a.fileNotFound && !a.local && !a.hasPath then Nobody
    else if a.fileNotFound && a.missing then FileNotFound
    else LastPayer(a)
  }

  function EnotdirPayer(a: Answer, slashLeft: bool): Payer {
    if !a.local && !a.hasPath then Nobody
    else if a.notDir && slashLeft then Enotdir
    else NotFoundPayer(a)
  }

  function FilePayer(a: Answer, slashLeft: bool): Payer {
    if a.readFile then ReadFile
    else if a.pathExists then PathExists
    else if a.probe then Probe
    else if a.enotdir then EnotdirPayer(a, slashLeft)
    else NotFoundPayer(a)
  }

  /** What is left of every budget that is never refilled. */
  datatype Budgets = Budgets(readFile: int, pathExists: int, probe: int, slashes: int,
                             fileNotFound: int, directoryIndex: int, chain: int)

  function Spend(b: Budgets, payer: Payer): Budgets {
    match payer
    case ReadFile => b.(readFile := b.readFile - 1)
    case PathExists => b.(pathExists := b.pathExists - 1)
    case Probe => b.(probe := b.probe - 1)
    case Enotdir => b.(slashes := b.slashes - 1)
    case FileNotFound => b.(fileNotFound := b.fileNotFound - 1)
    case DirectoryIndex => b.(directoryIndex := b.directoryIndex - 1)
    case ChainPayer => b.(chain := b.chain - 1)
    case Nobody => b
  }

  class Request {
    const uri: Bytes

    var nLayout: nat
    var nChecks: nat
    var nInternalRedirects: nat
    var nLikeHost: nat
    var nReadFile: nat
    var nPathExists: nat
    var nProbe: nat
    var nFileNotFound: nat
    var nDirectoryIndex: nat
    var nChain: nat

    /** The URI that the handler has cut at a slash, and where the rest of it begins. */
    var enotdirUri: Bytes
    var pathInfo: nat

    var previous: Saved
    var chain: bool
    var chainPending: bool

    /** No counter has been exceeded. */
    ghost predicate Valid()
      reads this
    {
      && nLayout <= 4 && nChecks <= 4 && nInternalRedirects <= 4 && nLikeHost <= 4 && nReadFile <= 2
      && nPathExists <= 2 && nProbe <= 2 && nFileNotFound <= 20 && nDirectoryIndex <= 4 && nChain <= 4
      && pathInfo <= |uri| && enotdirUri == uri[..pathInfo]
    }

    ghost function Left(): Budgets
      requires pathInfo <= |uri|
      reads this
    {
      Budgets(2 - nReadFile, 2 - nPathExists, 2 - nProbe, Slashes(uri, pathInfo),
              20 - nFileNotFound, 4 - nDirectoryIndex, 4 - nChain)
    }

    /** What can only become less. */
    ghost function Outer(): nat
      requires Valid()
      reads this
    {
      (4 - nLayout) + (4 - nLikeHost) + (2 - nReadFile) + (2 - nPathExists) + (2 - nProbe)
      + (20 - nFileNotFound) + (4 - nDirectoryIndex) + (4 - nChain) + Slashes(uri, pathInfo)
    }

    /** What is reset when the server is satisfied. */
    ghost function Inner(): (n: nat)
      requires Valid()
      reads this
      ensures n <= 8
    {
      (4 - nChecks) + (4 - nInternalRedirects)
    }

    ghost function Measure(): nat
      requires Valid()
      reads this
    {
      9 * Outer() + Inner()
    }

    constructor (uri: Bytes)
      ensures this.uri == uri && Valid() && !chainPending
      ensures Measure() == 9 * (42 + Slashes(uri, |uri|)) + 8
    {
      this.uri := uri;
      nLayout, nChecks, nInternalRedirects, nLikeHost, nReadFile := 0, 0, 0, 0, 0;
      nPathExists, nProbe, nFileNotFound, nDirectoryIndex, nChain := 0, 0, 0, 0, 0;
      enotdirUri, pathInfo := uri, |uri|;
      previous, chain, chainPending := NoAnswer, false, false;
    }

    /** Ask again, unless a counter says that the server has asked for that too often. */
    method RepeatTranslation(a: Answer) returns (next: Next)
      requires Valid() && Repeats(a)
      modifies this`nLayout, this`nChecks, this`nInternalRedirects, this`nLikeHost, this`previous
      ensures next == if !a.malformed && (a.layout ==> old(nLayout) < 4) && (a.check ==> old(nChecks) < 4)
                         && (a.internalRedirect ==> old(nInternalRedirects) < 4) && (a.likeHost ==> old(nLikeHost) < 4)
                      then Submit else Stop
      ensures next.Submit? ==> nLayout == Add(old(nLayout), a.layout) && nLikeHost == Add(old(nLikeHost), a.likeHost)
      ensures next.Submit? ==> nChecks == Add(old(nChecks), a.check)
                               && nInternalRedirects == Add(old(nInternalRedirects), a.internalRedirect)
      ensures next.Submit? ==> previous == if a.check || a.internalRedirect then Saved(a) else old(previous)
      ensures next.Submit? ==> Valid() && Measure() + (if Counted(a) then 1 else 0) <= old(Measure())
    {
      if a.layout {
        nLayout := nLayout + 1;
        if nLayout > 4 {
          return Stop;
        }
      }
      if a.check {
        nChecks := nChecks + 1;
        if nChecks > 4 {
          return Stop;
        }
      }
      if a.internalRedirect {
        nInternalRedirects := nInternalRedirects + 1;
        if nInternalRedirects > 4 {
          return Stop;
        }
      }
      if a.likeHost {
        nLikeHost := nLikeHost + 1;
        if nLikeHost > 4 {
          return Stop;
        }
      }
      if a.malformed {
        return Stop;
      }
      if a.check || a.internalRedirect {
        previous := Saved(a);
      }
      next := Submit;
    }

    /** Cut one more segment off the URI; true if there is none left. */
    method SubmitEnotdir() returns (giveUp: bool)
      requires Valid()
      modifies this`enotdirUri, this`pathInfo
      ensures Valid()
      ensures giveUp <==> LastSlash(uri, old(pathInfo)) <= 0
      ensures giveUp ==> pathInfo == old(pathInfo)
      ensures !giveUp ==> pathInfo == LastSlash(uri, old(pathInfo))
      ensures !giveUp ==> Slashes(uri, pathInfo) == Slashes(uri, old(pathInfo)) - 1
    {
      var slash := LastSlash(uri, pathInfo);
      if slash <= 0 {
        return true;
      }
      OneSlashLess(uri, pathInfo);
      enotdirUri := enotdirUri[..slash];
      pathInfo := slash;
      giveUp := false;
    }

    /** HandleTranslatedRequest2() and what follows it: the response may be passed on to a CHAIN translation. */
    method Conclude(a: Answer) returns (next: Next)
      requires Valid() && !chainPending
      modifies this`chain, this`nChain, this`chainPending
      ensures nChain == Add(old(nChain), a.chain)
      ensures next == if a.chain && a.reached && old(nChain) < 4 then Chain else Stop
      ensures next.Stop? ==> !chainPending
      ensures next.Chain? ==> Valid() && chainPending && !chain && Outer() == old(Outer()) - 1
    {
      chain := a.chain;
      if chain {
        nChain := nChain + 1;
        if nChain > 4 {
          return Stop;
        }
      }
      if chain && a.reached {
        chain, chainPending := false, true;
        return Chain;
      }
      next := Stop;
    }

    method CheckHandleReadFile() returns (next: Next)
      requires Valid()
      modifies this`nReadFile
      ensures next == (if old(nReadFile) < 2 then Submit else Stop) && nReadFile == old(nReadFile) + 1
    {
      nReadFile := nReadFile + 1;
      next := if nReadFile > 2 then Stop else Submit;
    }

    method CheckHandlePathExists(a: Answer) returns (next: Next)
      requires Valid()
      modifies this`nPathExists
      ensures next == (if old(nPathExists) < 2 && a.local then Submit else Stop) && nPathExists == old(nPathExists) + 1
    {
      nPathExists := nPathExists + 1;
      next := if nPathExists > 2 || !a.local then Stop else Submit;
    }

    method CheckHandleProbePathSuffixes() returns (next: Next)
      requires Valid()
      modifies this`nProbe
      ensures next == (if old(nProbe) < 2 then Submit else Stop) && nProbe == old(nProbe) + 1
    {
      nProbe := nProbe + 1;
      next := if nProbe > 2 then Stop else Submit;
    }

    method SubmitFileNotFound() returns (next: Next)
      requires Valid()
      modifies this`nFileNotFound
      ensures next == (if old(nFileNotFound) < 20 then Submit else Stop) && nFileNotFound == old(nFileNotFound) + 1
    {
      nFileNotFound := nFileNotFound + 1;
      next := if nFileNotFound > 20 then Stop else Submit;
    }

    method SubmitDirectoryIndex() returns (next: Next)
      requires Valid()
      modifies this`nDirectoryIndex
      ensures next == (if old(nDirectoryIndex) < 4 then Submit else Stop) && nDirectoryIndex == old(nDirectoryIndex) + 1
    {
      nDirectoryIndex := nDirectoryIndex + 1;
      next := if nDirectoryIndex > 4 then Stop else Submit;
    }

    /** The server does not ask to repeat: look at the files, one after the other. */
    method OnTranslateResponse2(a: Answer) returns (next: Next)
      requires Valid() && !chainPending
      modifies this`nReadFile, this`nPathExists, this`nProbe, this`nFileNotFound, this`nDirectoryIndex, this`nChain,
               this`enotdirUri, this`pathInfo, this`chain, this`chainPending
      ensures !next.Stop? ==> Valid() && Outer() < old(Outer())
      ensures if next.Chain? then chainPending else !chainPending
      ensures pathInfo <= |uri| && Left() == Spend(old(Left()), FilePayer(a, LastSlash(uri, old(pathInfo)) > 0))
      ensures FilePayer(a, LastSlash(uri, old(pathInfo)) > 0).Nobody? ==> next.Stop?
      ensures next.Chain? ==> FilePayer(a, LastSlash(uri, old(pathInfo)) > 0).ChainPayer?
    {
      if a.readFile {
        next := CheckHandleReadFile();
      } else if a.pathExists {
        next := CheckHandlePathExists(a);
      } else if a.probe {
        next := CheckHandleProbePathSuffixes();
      } else if a.enotdir {
        next := CheckFileEnotdir(a);
      } else {
        next := OnTranslateResponseAfterEnotdir(a);
      }
    }

    method CheckFileEnotdir(a: Answer) returns (next: Next)
      requires Valid() && !chainPending
      modifies this`nReadFile, this`nPathExists, this`nProbe, this`nFileNotFound, this`nDirectoryIndex, this`nChain,
               this`enotdirUri, this`pathInfo, this`chain, this`chainPending
      ensures !next.Stop? ==> Valid() && Outer() < old(Outer())
      ensures if next.Chain? then chainPending else !chainPending
      ensures pathInfo <= |uri| && Left() == Spend(old(Left()), EnotdirPayer(a, LastSlash(uri, old(pathInfo)) > 0))
      ensures EnotdirPayer(a, LastSlash(uri, old(pathInfo)) > 0).Nobody? ==> next.Stop?
      ensures next.Chain? ==> EnotdirPayer(a, LastSlash(uri, old(pathInfo)) > 0).ChainPayer?
    {
      hide Slashes, LastSlash, NotFoundPayer;
      if !a.local && !a.hasPath {
        return Stop;
      }
      if a.notDir {
        var giveUp := SubmitEnotdir();
        if !giveUp {
          return Submit;
        }
      }
      next := OnTranslateResponseAfterEnotdir(a);
    }

    method OnTranslateResponseAfterEnotdir(a: Answer) returns (next: Next)
      requires Valid() && !chainPending
      modifies this`nReadFile, this`nPathExists, this`nProbe, this`nFileNotFound, this`nDirectoryIndex, this`nChain,
               this`enotdirUri, this`pathInfo, this`chain, this`chainPending
      ensures !next.Stop? ==> Valid() && Outer() < old(Outer())
      ensures if next.Chain? then chainPending else !chainPending
      ensures pathInfo <= |uri| && Left() == Spend(old(Left()), NotFoundPayer(a))
      ensures NotFoundPayer(a).Nobody? ==> next.Stop?
      ensures next.Chain? ==> NotFoundPayer(a).ChainPayer?
    {
      if a.fileNotFound && !a.local && !a.hasPath {
        next := Stop;
      } else if a.fileNotFound && a.missing {
        next := SubmitFileNotFound();
      } else {
        next := OnTranslateResponseAfterFileNotFound(a);
      }
    }

    method OnTranslateResponseAfterFileNotFound(a: Answer) returns (next: Next)
      requires Valid() && !chainPending
      modifies this`nReadFile, this`nPathExists, this`nProbe, this`nFileNotFound, this`nDirectoryIndex, this`nChain,
               this`enotdirUri, this`pathInfo, this`chain, this`chainPending
      ensures !next.Stop? ==> Valid() && Outer() < old(Outer())
      ensures if next.Chain? then chainPending else !chainPending
      ensures pathInfo <= |uri| && Left() == Spend(old(Left()), LastPayer(a))
      ensures LastPayer(a).Nobody? ==> next.Stop?
      ensures next.Chain? ==> LastPayer(a).ChainPayer?
    {
      if a.directoryIndex && !a.local && !a.testPath {
        next := Stop;
      } else if a.directoryIndex && a.isDir {
        next := SubmitDirectoryIndex();
      } else {
        next := Conclude(a);
      }
    }

    method OnTranslateResponseAfterAuth(a: Answer) returns (next: Next)
      requires Valid() && !chainPending
      modifies this
      ensures !next.Stop? ==> Valid() && Measure() + (if Uncounted(a) then 0 else 1) <= old(Measure())
      ensures next.Chain? ==> chainPending
      ensures next.Submit? ==> !chainPending
      ensures !Repeats(a) ==> nChecks == 0 && nInternalRedirects == 0
      ensures Uncounted(a) && !a.malformed ==> next.Submit?
    {
      if Repeats(a) {
        next := RepeatTranslation(a);
        return;
      }
      nChecks, nInternalRedirects := 0, 0;
      var b := a;
      if a.previous {
        if previous.NoAnswer? {
          return Stop;
        }
        b, previous := previous.answer, NoAnswer;
      }
      next := OnTranslateResponse2(b);
    }

    method HandleChainResponse(a: Answer) returns (next: Next)
      requires Valid() && chainPending
      modifies this
      ensures !next.Stop? ==> Valid() && Measure() < old(Measure())
      ensures next.Chain? ==> chainPending
      ensures next.Submit? ==> a.internalRedirect && !chainPending
    {
      if a.breakChain {
        return Stop;
      }
      chainPending := false;
      if a.internalRedirect {
        next := RepeatTranslation(a);
        return;
      }
      if !a.hasAddress {
        return Stop;
      }
      next := Conclude(a);
    }

    /** Every answer that leads to another request brings the handler closer to its limits, unless no counter sees it. */
    method OnTranslateResponse(a: Answer) returns (next: Next)
      requires Valid()
      modifies this
      ensures !next.Stop? ==> Valid() && Measure() + (if Uncounted(a) then 0 else 1) <= old(Measure())
      ensures Uncounted(a) && !a.malformed && !a.stop && !old(chainPending) ==> next.Submit? && !chainPending
    {
      if a.stop {
        next := Stop;
      } else if chainPending {
        next := HandleChainResponse(a);
      } else {
        next := OnTranslateResponseAfterAuth(a);
      }
    }
  }

  /** The number of translation requests, however the server answers. */
  method Dialogue(uri: Bytes, answers: seq<Answer>) returns (requests: nat)
    ensures requests <= 1 + 9 * (42 + Slashes(uri, |uri|)) + 8 + CountUncounted(answers)
  {
    var request := new Request(uri);
    requests := 1;
    var k := 0;
    ghost var limit := request.Measure();
    while k < |answers|
      invariant k <= |answers| && fresh(request) && request.Valid()
      invariant requests + request.Measure() <= 1 + limit + CountUncounted(answers[..k])
    {
      assert answers[..k + 1][..k] == answers[..k];
      var next := request.OnTranslateResponse(answers[k]);
      k := k + 1;
      if next.Stop? {
        break;
      }
      requests := requests + 1;
    }
    CountPrefix(answers, k);
  }

  lemma {:induction false} CountPrefix(answers: seq<Answer>, k: nat)
    requires k <= |answers|
    ensures CountUncounted(answers[..k]) <= CountUncounted(answers)
    decreases |answers|
  {
    if k == |answers| {
      assert answers[..k] == answers;
    } else {
      var front := answers[..|answers| - 1];
      assert front[..k] == answers[..k];
      CountPrefix(front, k);
    }
  }

  /** A server that always wants something more keeps the handler asking for as long as it likes. */
  method WantForever(uri: Bytes, want: Answer, n: nat) returns (requests: nat)
    requires Uncounted(want) && !want.malformed && !want.stop
    ensures requests == n + 1
  {
    var request := new Request(uri);
    requests := 1;
    for k := 0 to n
      invariant fresh(request) && request.Valid() && !request.chainPending
      invariant requests == k + 1
    {
      var next := request.OnTranslateResponse(want);
      if !next.Stop? {
        requests := requests + 1;
      }
    }
  }
}
