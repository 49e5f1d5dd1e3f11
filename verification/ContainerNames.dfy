/**
 Names of Docker containers: how API container names are printed and parsed, how session
 names are derived from e-mail addresses, and how the engine tells the kinds apart by
 suffix (engine/src/juliabox/api/api_container.py, jbox_container.py, jbox_util.py).
 */
module ContainerNames {
  import opened Basics
  import opened Strings

  const SEP: char := '_'
  const SFX_SVC: string := "_jboxsvc"
  const SFX_API: string := "_jboxapi"

  predicate IsHex(c: char) {
    '0' <= c <= '9' || 'a' <= c <= 'f'
  }

  // What hashlib's sha1(...).hexdigest() returns.
  predicate IsDigest(d: string) {
    |d| == 40 && forall c <- d :: IsHex(c)
  }

  // The name given to a new API container; `sign` is the digest of a fresh serial number.
  function ApiContainerName(sign: string, apiName: string): string {
    sign + [SEP] + apiName + SFX_API
  }

  function ParseApiName(containerName: string): Option<string> {
    var name := if StartsWith(containerName, "/") then containerName[1..] else containerName;
    var parts := Split(name, SEP);
    if |parts| >= 3 && parts[|parts| - 1] == SFX_API[1..] && |parts[0]| == 40 then
      Some(Join(parts[1..|parts| - 1], SEP))
    else
      None
  }

  function ReplaceChar(s: string, c: char, repl: string): string {
    if s == "" then "" else (if s[0] == c then repl else [s[0]]) + ReplaceChar(s[1..], c, repl)
  }

  function EscSessname(s: string): string {
    ReplaceChar(ReplaceChar(s, '@', "_at_"), '.', "_")
  }

  // `digest` is the SHA-1 digest of the whole address.
  function UniqueSessname(email: string, digest: string): string {
    EscSessname(Split(email, '@')[0]) + [SEP] + digest
  }

  datatype Kind = Service | Api | Session

  // The chain of suffix tests of num_active.
  function KindOf(name: string): Kind {
    if EndsWith(name, SFX_SVC) then Service else if EndsWith(name, SFX_API) then Api else Session
  }

  // Docker reports names with a leading slash.
  function Slashed(name: string, slash: bool): string {
    if slash then "/" + name else name
  }

  // The suffix tests of the listing functions agree with the chain of tests in num_active.
  lemma KindBySuffix(name: string)
    ensures (!EndsWith(name, SFX_SVC) && !EndsWith(name, SFX_API)) <==> KindOf(name) == Session
    ensures EndsWith(name, SFX_API) <==> KindOf(name) == Api
    ensures EndsWith(name, SFX_SVC) <==> KindOf(name) == Service
  {
    assert SFX_API[7] == 'i' && SFX_SVC[7] == 'c';
  }

  lemma PartsOfApiName(sign: string, apiName: string)
    requires IsDigest(sign)
    ensures Split(ApiContainerName(sign, apiName), SEP) == [sign] + Split(apiName, SEP) + [SFX_API[1..]]
  {
    var tail := SFX_API[1..];
    assert ApiContainerName(sign, apiName) == sign + [SEP] + (apiName + [SEP] + tail);
    assert SEP !in sign by { assert !IsHex(SEP); }
    assert SEP !in tail;
    SplitOfPlain(sign, SEP);
    SplitOfPlain(tail, SEP);
    SplitAppend(apiName, tail, SEP);
    SplitAppend(sign, apiName + [SEP] + tail, SEP);
  }

  lemma ApiNamesAreApis(sign: string, apiName: string, slash: bool)
    ensures KindOf(Slashed(ApiContainerName(sign, apiName), slash)) == Api
  {
    var full := Slashed(ApiContainerName(sign, apiName), slash);
    assert full[|full| - 8..] == SFX_API;
    KindBySuffix(full);
  }

  // Docker's slash is dropped before a name is split.
  lemma SlashIsDropped(name: string, slash: bool)
    requires name != "" && name[0] != '/'
    ensures ParseApiName(Slashed(name, slash)) == ParseApiName(name)
  {
    hide Split, Join;
    assert ("/" + name)[1..] == name;
    assert !StartsWith(name, "/");
    assert StartsWith("/" + name, "/");
  }

  lemma ParseInvertsPrint(sign: string, apiName: string, slash: bool)
    requires IsDigest(sign)
    ensures ParseApiName(Slashed(ApiContainerName(sign, apiName), slash)) == Some(apiName)
    ensures KindOf(Slashed(ApiContainerName(sign, apiName), slash)) == Api
  {
    hide Split, Join, KindOf, Slashed;
    var name := ApiContainerName(sign, apiName);
    ApiNamesAreApis(sign, apiName, slash);
    PartsOfApiName(sign, apiName);
    JoinOfSplit(apiName, SEP);
    assert Split(name, SEP)[1..|Split(name, SEP)| - 1] == Split(apiName, SEP);
    assert name[0] == sign[0] && IsHex(sign[0]);
    assert !StartsWith(name, "/");
    SlashIsDropped(name, slash);
  }

  // Containers of different APIs never share a name, so Docker's listing identifies the API.
  lemma ApiNamesNeverClash(sign: string, a: string, sign': string, b: string)
    requires IsDigest(sign) && IsDigest(sign')
    requires ApiContainerName(sign, a) == ApiContainerName(sign', b)
    ensures a == b
  {
    ParseInvertsPrint(sign, a, false);
    ParseInvertsPrint(sign', b, false);
  }

  // The last eight characters of a session name are hexadecimal, so no address can be
  // chosen that makes a session pass for a service or an API container.
  lemma SessionNamesAreSessions(email: string, digest: string, slash: bool)
    requires IsDigest(digest)
    ensures KindOf(Slashed(UniqueSessname(email, digest), slash)) == Session
    ensures ParseApiName(Slashed(UniqueSessname(email, digest), slash)) == None
  {
    var name := UniqueSessname(email, digest);
    var full := Slashed(name, slash);
    assert full[|full| - 1] == digest[39];
    assert full[|full| - 2] == digest[38];
    assert IsHex(digest[39]) && IsHex(digest[38]);
    assert SFX_API[7] == 'i' && !IsHex('i');
    assert SFX_SVC[6] == 'v' && !IsHex('v');
    assert KindOf(full) == Session;
    var esc := EscSessname(Split(email, '@')[0]);
    var bare := if StartsWith(full, "/") then full[1..] else full;
    assert SEP !in digest by { assert !IsHex(SEP); }
    SplitOfPlain(digest, SEP);
    if slash {
      assert full[1..] == name;
    } else {
      assert full[0] == '/' ==> esc != "";
    }
    var head := if slash || !StartsWith(full, "/") then esc else esc[1..];
    assert bare == head + [SEP] + digest;
    SplitAppend(head, digest, SEP);
    assert Split(bare, SEP)[|Split(bare, SEP)| - 1] == digest;
    assert |SFX_API[1..]| == 7;
  }

  // Session names of addresses with different digests differ.
  lemma SessionNamesDiffer(a: string, da: string, b: string, db: string)
    requires IsDigest(da) && IsDigest(db) && da != db
    ensures UniqueSessname(a, da) != UniqueSessname(b, db)
  {
    hide EscSessname, Split;
    var x, y := UniqueSessname(a, da), UniqueSessname(b, db);
    assert x[|x| - 40..] == da && y[|y| - 40..] == db;
  }

  // Without the digest they need not: a dot and an underscore are not told apart.
  lemma EscNamesClash(s: string)
    ensures EscSessname(ReplaceChar(s, '.', "_")) == EscSessname(s)
  {
    ReplaceSwaps(s);
    ReplaceTwice(ReplaceChar(s, '@', "_at_"));
  }

  lemma {:induction false} ReplaceAppend(s: string, t: string, c: char, repl: string)
    ensures ReplaceChar(s + t, c, repl) == ReplaceChar(s, c, repl) + ReplaceChar(t, c, repl)
  {
    if s == "" {
      assert s + t == t;
    } else {
      ReplaceAppend(s[1..], t, c, repl);
      assert (s + t)[1..] == s[1..] + t;
    }
  }

  lemma {:induction false} ReplaceSwaps(s: string)
    ensures ReplaceChar(ReplaceChar(s, '.', "_"), '@', "_at_") == ReplaceChar(ReplaceChar(s, '@', "_at_"), '.', "_")
  {
    if s != "" {
      ReplaceSwaps(s[1..]);
      var dot, at := if s[0] == '.' then "_" else [s[0]], if s[0] == '@' then "_at_" else [s[0]];
      ReplaceAppend(dot, ReplaceChar(s[1..], '.', "_"), '@', "_at_");
      ReplaceAppend(at, ReplaceChar(s[1..], '@', "_at_"), '.', "_");
      OneReplaced(s[0]);
    }
  }

  lemma OneReplaced(c: char)
    ensures var dot, at := if c == '.' then "_" else [c], if c == '@' then "_at_" else [c];
            ReplaceChar(dot, '@', "_at_") == ReplaceChar(at, '.', "_")
  {
    assert [c][1..] == "" && "_"[1..] == "";
    if c == '@' {
      assert "_at_"[1..] == "at_" && "at_"[1..] == "t_" && "t_"[1..] == "_";
    }
  }

  lemma {:induction false} ReplaceTwice(s: string)
    ensures ReplaceChar(ReplaceChar(s, '.', "_"), '.', "_") == ReplaceChar(s, '.', "_")
  {
    if s != "" {
      ReplaceTwice(s[1..]);
      var dot := if s[0] == '.' then "_" else [s[0]];
      ReplaceAppend(dot, ReplaceChar(s[1..], '.', "_"), '.', "_");
      assert dot[1..] == "";
    }
  }

  lemma {:induction false} EscIsShort(s: string)
    ensures |EscSessname(s)| <= 4 * |s|
  {
    ReplacedLength(s, '@', "_at_");
    ReplacedLength(ReplaceChar(s, '@', "_at_"), '.', "_");
  }

  lemma {:induction false} ReplacedLength(s: string, c: char, repl: string)
    requires |repl| == 1 || |repl| == 4
    ensures |ReplaceChar(s, c, repl)| <= |repl| * |s|
  {
    if s != "" {
      ReplacedLength(s[1..], c, repl);
    }
  }

  // The names with a suffix, in Docker's order
  function EndingIn(names: seq<string>, sfx: string): seq<string> {
    if names == [] then []
    else
      var rest, last := EndingIn(names[..|names| - 1], sfx), names[|names| - 1];
      if EndsWith(last, sfx) then rest + [last] else rest
  }

  // Those with neither of the two suffixes
  function SessionsAmong(names: seq<string>): seq<string> {
    if names == [] then []
    else
      var rest, last := SessionsAmong(names[..|names| - 1]), names[|names| - 1];
      if !EndsWith(last, SFX_SVC) && !EndsWith(last, SFX_API) then rest + [last] else rest
  }

  // How often a name is listed
  lemma {:induction false} EndingInCounts(names: seq<string>, sfx: string, x: string)
    ensures multiset(EndingIn(names, sfx))[x] == if EndsWith(x, sfx) then multiset(names)[x] else 0
  {
    hide EndsWith;
    if names != [] {
      var front, last := names[..|names| - 1], names[|names| - 1];
      EndingInCounts(front, sfx, x);
      assert names == front + [last];
    }
  }

  lemma {:induction false} SessionsAmongCounts(names: seq<string>, x: string)
    ensures multiset(SessionsAmong(names))[x]
            == if !EndsWith(x, SFX_SVC) && !EndsWith(x, SFX_API) then multiset(names)[x] else 0
  {
    hide EndsWith;
    if names != [] {
      var front, last := names[..|names| - 1], names[|names| - 1];
      SessionsAmongCounts(front, x);
      assert names == front + [last];
    }
  }

  // The three listings, each with a suffix test of its own, leave out no container and list
  // none twice.
  lemma ListingsPartition(names: seq<string>)
    ensures multiset(names) ==
            multiset(SessionsAmong(names)) + multiset(EndingIn(names, SFX_API)) + multiset(EndingIn(names, SFX_SVC))
  {
    hide EndsWith, EndingIn, SessionsAmong;
    var parts :=
      multiset(SessionsAmong(names)) + multiset(EndingIn(names, SFX_API)) + multiset(EndingIn(names, SFX_SVC));
    forall x: string ensures multiset(names)[x] == parts[x] {
      SessionsAmongCounts(names, x);
      EndingInCounts(names, SFX_API, x);
      EndingInCounts(names, SFX_SVC, x);
      SuffixesExclude(x);
    }
  }

  lemma SuffixesExclude(name: string)
    ensures !(EndsWith(name, SFX_SVC) && EndsWith(name, SFX_API))
  {
    KindBySuffix(name);
  }

  method SessionContainers(names: seq<string>) returns (sessions: seq<string>)
    ensures sessions == SessionsAmong(names)
  {
    sessions := [];
    for i := 0 to |names|
      invariant sessions == SessionsAmong(names[..i])
    {
      assert names[..i + 1][..i] == names[..i];
      if !EndsWith(names[i], SFX_SVC) && !EndsWith(names[i], SFX_API) {
        sessions := sessions + [names[i]];
      }
    }
    assert names[..|names|] == names;
  }

  method ContainersOfType(names: seq<string>, sfx: string) returns (containers: seq<string>)
    ensures containers == EndingIn(names, sfx)
  {
    containers := [];
    for i := 0 to |names|
      invariant containers == EndingIn(names[..i], sfx)
    {
      assert names[..i + 1][..i] == names[..i];
      if EndsWith(names[i], sfx) {
        containers := containers + [names[i]];
      }
    }
    assert names[..|names|] == names;
  }

  // num_active: without a kind, everything but the service containers is counted. The counts
  // are the lengths of the listings.
  method NumActive(names: seq<string>, kind: Option<Kind>) returns (count: nat)
    ensures count == match kind
                     case None => |SessionsAmong(names)| + |EndingIn(names, SFX_API)|
                     case Some(Session) => |SessionsAmong(names)|
                     case Some(Api) => |EndingIn(names, SFX_API)|
                     case Some(Service) => |EndingIn(names, SFX_SVC)|
  {
    hide KindOf, EndsWith;
    count := 0;
    for i := 0 to |names|
      invariant count == match kind
                         case None => |SessionsAmong(names[..i])| + |EndingIn(names[..i], SFX_API)|
                         case Some(Session) => |SessionsAmong(names[..i])|
                         case Some(Api) => |EndingIn(names[..i], SFX_API)|
                         case Some(Service) => |EndingIn(names[..i], SFX_SVC)|
    {
      assert names[..i + 1][..i] == names[..i];
      KindBySuffix(names[i]);
      var typ := KindOf(names[i]);
      if (kind.None? && typ != Service) || kind == Some(typ) {
        count := count + 1;
      }
    }
    assert names[..|names|] == names;
  }
}
