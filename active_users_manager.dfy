// The admin "active users" view: whether each user is online, the project
// an online user is working in (found by scanning the real-time service's
// `ConnectedUser:{project}:{client}` keys), their storage, and the list
// ordered online-first then by email. Redis and database answers arrive as
// values.
module ActiveUsersManager {
  import opened Wrappers
  import opened Text
  import opened Seqs
  import StableSort
  import DocStorage

  // ---------------------------------------------------------------------
  // Online status
  // ---------------------------------------------------------------------

  /** How the session-set lookup ended: no Redis client, the members
      returned, the 5-second timeout (which answers with no members), or an
      error. */
  datatype SessionCheck = NoClient | Members(sessions: seq<string>) | TimedOut | Failed

  /** `_isUserOnline`. */
  function IsUserOnline(check: SessionCheck): (online: bool)
    ensures online <==> check.Members? && |check.sessions| > 0
    ensures check.NoClient? || check.TimedOut? || check.Failed? ==> !online
  {
    match check
    case NoClient => false
    case Members(sessions) => |sessions| > 0
    case TimedOut => false
    case Failed => false
  }

  // ---------------------------------------------------------------------
  // Scanning keys
  // ---------------------------------------------------------------------

  /** The answer to one SCAN call: the next cursor and a page of keys, or
      an error. */
  datatype ScanReply = Page(cursor: string, keys: seq<string>) | ScanFailed

  const MaxKeys := 1000

  predicate AllPages(rs: seq<ScanReply>)
  {
    forall i :: 0 <= i < |rs| ==> rs[i].Page?
  }

  /** The keys of a run of replies, concatenated (an error adds none). */
  function PageKeys(rs: seq<ScanReply>): seq<string>
  {
    if rs == [] then []
    else PageKeys(rs[..|rs| - 1]) + (if rs[|rs| - 1].Page? then rs[|rs| - 1].keys else [])
  }

  /** After the first `n` replies the loop goes on: each was a page whose
      cursor was not "0" and which left fewer than 1000 keys gathered. */
  predicate KeptScanning(rs: seq<ScanReply>, n: nat)
    requires n <= |rs|
  {
    forall j :: 0 <= j < n ==> rs[j].Page? && rs[j].cursor != "0" && |PageKeys(rs[..j + 1])| < MaxKeys
  }

  /** The scan read exactly the first `n` replies: all pages, giving
      `keys`; every page but the last let the loop go on, so the last page
      read started below 1000 keys (at most one page of overshoot); and the
      loop stopped at cursor "0", at 1000 or more keys, or at an error. */
  predicate ScanStoppedAfter(replies: seq<ScanReply>, n: nat, keys: seq<string>)
  {
    n <= |replies| && AllPages(replies[..n]) && keys == PageKeys(replies[..n])
    && (n > 0 ==> KeptScanning(replies, n - 1) && |PageKeys(replies[..n - 1])| < MaxKeys)
    && (n == |replies| || replies[n].ScanFailed?
        || (n > 0 && (replies[n - 1].cursor == "0" || |keys| >= MaxKeys)))
  }

  /** The keys a scan gathers from the `i`-th reply on, having gathered
      `gathered` before it. */
  function ScanFrom(replies: seq<ScanReply>, i: nat, gathered: seq<string>): seq<string>
    decreases |replies| - i
  {
    if i >= |replies| || replies[i].ScanFailed? then gathered
    else
      var next := gathered + replies[i].keys;
      if |next| >= MaxKeys || replies[i].cursor == "0" then next
      else ScanFrom(replies, i + 1, next)
  }

  /** The keys of a whole scan. */
  function ScanKeys(replies: seq<ScanReply>): seq<string>
  {
    ScanFrom(replies, 0, [])
  }

  /** Going on after `n` replies means going on after fewer. */
  lemma KeptScanningPrefix(rs: seq<ScanReply>, m: nat, n: nat)
    requires m <= n <= |rs| && KeptScanning(rs, n)
    ensures KeptScanning(rs, m)
  {
    forall j | 0 <= j < m
      ensures rs[j].Page? && rs[j].cursor != "0" && |PageKeys(rs[..j + 1])| < MaxKeys
    {
      assert j < n;
    }
  }

  /** The scan ends at an error or when the replies run out. */
  lemma StoppedAtFailure(replies: seq<ScanReply>, i: nat, keys: seq<string>)
    requires i <= |replies| && AllPages(replies[..i]) && keys == PageKeys(replies[..i])
    requires KeptScanning(replies, i)
    requires i == |replies| || replies[i].ScanFailed?
    ensures ScanStoppedAfter(replies, i, keys)
  {
    if i > 0 {
      assert replies[..i][..i - 1] == replies[..i - 1];
      assert AllPages(replies[..i - 1]);
      KeptScanningPrefix(replies, i - 1, i);
      if i > 1 {
        assert replies[..i - 2 + 1] == replies[..i - 1];
      } else {
        assert replies[..i - 1] == [];
      }
    }
  }

  /** The scan ends after a page that brings the keys to 1000 or more, or
      whose cursor is "0". */
  lemma StoppedAtPage(replies: seq<ScanReply>, i: nat, keys: seq<string>)
    requires i < |replies| && replies[i].Page? && AllPages(replies[..i])
    requires KeptScanning(replies, i)
    requires keys == PageKeys(replies[..i + 1])
    requires |keys| >= MaxKeys || replies[i].cursor == "0"
    ensures ScanStoppedAfter(replies, i + 1, keys)
  {
    assert replies[..i + 1][..i] == replies[..i];
    assert AllPages(replies[..i + 1]);
    if i > 0 {
      assert replies[..i - 1 + 1] == replies[..i];
    } else {
      assert replies[..i] == [];
    }
  }

  /** A page that leaves the scan going extends the pages read. */
  lemma KeepsScanning(replies: seq<ScanReply>, i: nat)
    requires i < |replies| && replies[i].Page? && AllPages(replies[..i])
    requires KeptScanning(replies, i)
    requires |PageKeys(replies[..i + 1])| < MaxKeys && replies[i].cursor != "0"
    ensures AllPages(replies[..i + 1]) && KeptScanning(replies, i + 1)
  {
    assert replies[..i + 1][..i] == replies[..i];
    forall j | 0 <= j < i + 1
      ensures replies[j].Page? && replies[j].cursor != "0" && |PageKeys(replies[..j + 1])| < MaxKeys
    {
      if j < i {
        assert KeptScanning(replies, i);
      }
    }
  }

  /** `_scanRedisKeys`: `replies[i]` answers the i-th SCAN call, and
      running out of replies counts as an error. */
  method ScanRedisKeys(replies: seq<ScanReply>) returns (keys: seq<string>)
    ensures exists n :: ScanStoppedAfter(replies, n, keys)
    ensures keys == ScanKeys(replies)
  {
    keys := [];
    var i := 0;
    while true
      invariant 0 <= i <= |replies| && AllPages(replies[..i])
      invariant keys == PageKeys(replies[..i])
      invariant KeptScanning(replies, i)
      invariant ScanFrom(replies, i, keys) == ScanKeys(replies)
      decreases |replies| - i
    {
      if i == |replies| || replies[i].ScanFailed? {
        StoppedAtFailure(replies, i, keys);
        return;
      }
      var page := replies[i];
      assert replies[..i + 1][..i] == replies[..i];
      assert PageKeys(replies[..i + 1]) == keys + page.keys;
      keys := keys + page.keys;
      if |keys| >= MaxKeys || page.cursor == "0" {
        StoppedAtPage(replies, i, keys);
        return;
      }
      KeepsScanning(replies, i);
      i := i + 1;
    }
  }

  // ---------------------------------------------------------------------
  // The project an online user is in
  // ---------------------------------------------------------------------

  const KeyPrefix := "ConnectedUser:{"

  /** The regular expression `ConnectedUser:\{([^}]+)\}:` tried at index
      `i`: the prefix, a non-empty run without '}', then "}:". */
  function MatchAt(key: string, i: nat): (r: Option<string>)
    ensures r.Some? ==> |r.value| > 0 && !Contains(r.value, "}")
  {
    if i + |KeyPrefix| <= |key| && key[i..i + |KeyPrefix|] == KeyPrefix then
      var rest := key[i + |KeyPrefix|..];
      match IndexOf(rest, "}")
      case None => None
      case Some(j) =>
        if j >= 1 && j + 1 < |rest| && rest[j + 1] == ':' then
          assert !Contains(rest[..j], "}") by {
            forall m | OccursAt(rest[..j], "}", m)
              ensures false
            {
              assert rest[m..m + 1] == rest[..j][m..m + 1];
              assert OccursAt(rest, "}", m);
            }
          }
          Some(rest[..j])
        else None
    else None
  }

  /** The leftmost match at or after index `i`. */
  function MatchFrom(key: string, i: nat): Option<string>
    decreases |key| - i
  {
    if i >= |key| then None
    else match MatchAt(key, i)
      case Some(p) => Some(p)
      case None => MatchFrom(key, i + 1)
  }

  /** The project id inside a `ConnectedUser:{…}:` key, if any. */
  function ExtractProjectId(key: string): Option<string>
  {
    MatchFrom(key, 0)
  }

  /** The key format round-trips: a key built from a project id without
      '}' yields that id. */
  lemma ExtractProjectIdOfKey(projectId: string, clientId: string)
    requires |projectId| > 0 && forall i :: 0 <= i < |projectId| ==> projectId[i] != '}'
    ensures ExtractProjectId(KeyPrefix + projectId + "}:" + clientId) == Some(projectId)
  {
    var key := KeyPrefix + projectId + "}:" + clientId;
    var rest := key[|KeyPrefix|..];
    assert rest == projectId + "}:" + clientId;
    assert OccursAt(rest, "}", |projectId|);
    forall m | 0 <= m < |projectId|
      ensures !OccursAt(rest, "}", m)
    {
      assert rest[m] == projectId[m];
    }
    assert IndexOf(rest, "}") == Some(|projectId|);
    assert rest[..|projectId|] == projectId;
    assert key[..|KeyPrefix|] == KeyPrefix;
  }

  /** A key without the prefix has no project id. */
  lemma NoPrefixNoProject(key: string)
    requires !Contains(key, KeyPrefix)
    ensures ExtractProjectId(key).None?
  {
    NoPrefixFrom(key, 0);
  }

  lemma {:induction false} NoPrefixFrom(key: string, i: nat)
    requires !Contains(key, KeyPrefix)
    ensures MatchFrom(key, i).None?
    decreases |key| - i
  {
    if i < |key| {
      assert !OccursAt(key, KeyPrefix, i);
      NoPrefixFrom(key, i + 1);
    }
  }

  /** What `hgetall` answered for a key: the hash's `user_id` (None when
      the hash is empty or lacks it), or an error. */
  datatype HashReply = Hash(userId: Option<string>) | HashFailed

  /** What the project lookup for a key's project id answered: a project
      with its name ("" when it has none), no project, or an error. */
  datatype ProjectReply = Found(name: string) | NotFound | LookupFailed

  datatype KeyProbe = KeyProbe(hash: HashReply, project: ProjectReply)

  datatype ProjectRef = ProjectRef(id: string, name: string)

  /** The key is the user's connection to an existing project. */
  predicate Qualifies(userId: string, key: string, probe: KeyProbe)
  {
    probe.hash == Hash(Some(userId)) && ExtractProjectId(key).Some? && probe.project.Found?
  }

  function ProjectFrom(key: string, probe: KeyProbe): ProjectRef
    requires ExtractProjectId(key).Some? && probe.project.Found?
  {
    ProjectRef(ExtractProjectId(key).value,
               if probe.project.name == "" then "Untitled" else probe.project.name)
  }

  /** The project of the first key that qualifies; `probes[i]` answers
      the lookups for `keys[i]`, and a key without an answer is skipped
      like one whose lookups fail. */
  function FirstQualifying(userId: string, keys: seq<string>, probes: seq<KeyProbe>): Option<ProjectRef>
    decreases |keys|
  {
    if keys == [] || probes == [] then None
    else if Qualifies(userId, keys[0], probes[0]) then Some(ProjectFrom(keys[0], probes[0]))
    else FirstQualifying(userId, keys[1..], probes[1..])
  }

  /** The search finds a project exactly when some key qualifies, and then
      it is the project of the first such key. */
  lemma {:induction false} FirstQualifyingIsFirst(userId: string, keys: seq<string>, probes: seq<KeyProbe>)
    ensures FirstQualifying(userId, keys, probes).None?
            <==> forall k :: 0 <= k < |keys| && k < |probes| ==> !Qualifies(userId, keys[k], probes[k])
    ensures FirstQualifying(userId, keys, probes).Some? ==>
              exists k :: 0 <= k < |keys| && k < |probes| && Qualifies(userId, keys[k], probes[k])
                          && FirstQualifying(userId, keys, probes).value == ProjectFrom(keys[k], probes[k])
                          && forall j :: 0 <= j < k ==> !Qualifies(userId, keys[j], probes[j])
    decreases |keys|
  {
    if keys == [] || probes == [] {
    } else if Qualifies(userId, keys[0], probes[0]) {
      assert FirstQualifying(userId, keys, probes).value == ProjectFrom(keys[0], probes[0]);
    } else {
      var rest := FirstQualifying(userId, keys[1..], probes[1..]);
      FirstQualifyingIsFirst(userId, keys[1..], probes[1..]);
      assert forall k :: 1 <= k < |keys| && k < |probes| ==>
               keys[1..][k - 1] == keys[k] && probes[1..][k - 1] == probes[k];
      if rest.Some? {
        var k :| 0 <= k < |keys[1..]| && k < |probes[1..]| && Qualifies(userId, keys[1..][k], probes[1..][k])
                 && rest.value == ProjectFrom(keys[1..][k], probes[1..][k])
                 && forall j :: 0 <= j < k ==> !Qualifies(userId, keys[1..][j], probes[1..][j]);
        forall j | 0 <= j < k + 1
          ensures !Qualifies(userId, keys[j], probes[j])
        {
          if j > 0 {
            assert keys[1..][j - 1] == keys[j] && probes[1..][j - 1] == probes[j];
          }
        }
        assert Qualifies(userId, keys[k + 1], probes[k + 1]);
      }
    }
  }

  /** One step of the search: the key at `i` or, failing that, the rest. */
  lemma FirstQualifyingStep(userId: string, keys: seq<string>, probes: seq<KeyProbe>, i: nat)
    requires i < |keys| && i < |probes|
    ensures FirstQualifying(userId, keys[i..], probes[i..])
            == if Qualifies(userId, keys[i], probes[i]) then Some(ProjectFrom(keys[i], probes[i]))
               else FirstQualifying(userId, keys[i + 1..], probes[i + 1..])
  {
    assert keys[i..][0] == keys[i] && probes[i..][0] == probes[i];
    assert keys[i..][1..] == keys[i + 1..] && probes[i..][1..] == probes[i + 1..];
  }

  /** `_getUserCurrentProject`: the keys the scan gathers, and the project
      of the first qualifying one; a key whose lookups fail is skipped; no
      such key gives null. */
  method GetUserCurrentProject(userId: string, replies: seq<ScanReply>, probes: seq<KeyProbe>)
    returns (keys: seq<string>, r: Option<ProjectRef>)
    ensures keys == ScanKeys(replies)
    ensures r == FirstQualifying(userId, keys, probes)
  {
    keys := ScanRedisKeys(replies);
    if |keys| == 0 {
      return keys, None;
    }
    var i := 0;
    assert keys[0..] == keys && probes[0..] == probes;
    while i < |keys| && i < |probes|
      invariant 0 <= i <= |keys| && i <= |probes|
      invariant FirstQualifying(userId, keys[i..], probes[i..]) == FirstQualifying(userId, keys, probes)
    {
      var probe := probes[i];
      FirstQualifyingStep(userId, keys, probes, i);
      if probe.hash.Hash? && probe.hash.userId == Some(userId) {
        var projectId := ExtractProjectId(keys[i]);
        if projectId.Some? && probe.project.Found? {
          return keys, Some(ProjectFrom(keys[i], probe));
        }
      }
      i := i + 1;
    }
    assert keys[i..] == [] || probes[i..] == [];
    return keys, None;
  }

  // ---------------------------------------------------------------------
  // The users list
  // ---------------------------------------------------------------------

  /** A user document as projected: missing fields are `None`. */
  datatype UserDoc = UserDoc(id: string, email: Option<string>, firstName: Option<string>,
                             lastName: Option<string>)

  /** Everything the stores answer about one user. */
  datatype UserProbe = UserProbe(session: SessionCheck, scan: seq<ScanReply>, keyProbes: seq<KeyProbe>,
                                 storage: DocStorage.ProjectsQuery)

  datatype UserStatus = UserStatus(id: string, email: string, firstName: string, lastName: string,
                                   isOnline: bool, currentProject: Option<ProjectRef>, storageUsed: nat)

  /** The comparator handed to `.sort`: online before offline, then by
      email. */
  function StatusCompare(a: UserStatus, b: UserStatus): int
  {
    if a.isOnline != b.isOnline then (if b.isOnline then 1 else -1)
    else CompareStrings(a.email, b.email)
  }

  /** `a` may stay before `b`. */
  predicate StatusLe(a: UserStatus, b: UserStatus)
  {
    StatusCompare(a, b) <= 0
  }

  lemma StatusLeTotal(a: UserStatus, b: UserStatus)
    ensures StatusLe(a, b) || StatusLe(b, a)
  {
    CompareAntisymmetric(a.email, b.email);
  }

  lemma StatusLeTransitive(a: UserStatus, b: UserStatus, c: UserStatus)
    requires StatusLe(a, b) && StatusLe(b, c)
    ensures StatusLe(a, c)
  {
    if a.isOnline == b.isOnline == c.isOnline {
      CompareTransitive(a.email, b.email, c.email);
    }
  }

  lemma StatusCompareIsTotalPreorder()
    ensures StableSort.IsTotalPreorder(StatusCompare)
  {
    forall a, b
      ensures StableSort.Le(StatusCompare, a, b) || StableSort.Le(StatusCompare, b, a)
    {
      StatusLeTotal(a, b);
    }
    forall a, b, c | StableSort.Le(StatusCompare, a, b) && StableSort.Le(StatusCompare, b, c)
      ensures StableSort.Le(StatusCompare, a, c)
    {
      StatusLeTransitive(a, b, c);
    }
  }

  /** The comparator ties two entries exactly when they have the same
      status and the same email (two users without one, say), so these
      are the entries whose input order the stable sort keeps. */
  lemma StatusTiedIff(a: UserStatus, b: UserStatus)
    ensures StableSort.Tied(StatusCompare, a, b) <==> a.isOnline == b.isOnline && a.email == b.email
  {
    CompareAntisymmetric(a.email, b.email);
  }

  ghost predicate SortedStatuses(s: seq<UserStatus>)
  {
    forall p, q :: 0 <= p < q < |s| ==> StatusLe(s[p], s[q])
  }

  /** The in-place `.sort` of the list, by insertion. Like
      `Array.prototype.sort` it is stable: entries the comparator ties
      keep their order. */
  method SortStatuses(a: array<UserStatus>)
    modifies a
    ensures SortedStatuses(a[..])
    ensures multiset(a[..]) == multiset(old(a[..]))
    ensures StableSort.SameTies(StatusCompare, a[..], old(a[..]))
  {
    var i := 0;
    while i < a.Length
      invariant 0 <= i <= a.Length
      invariant forall p, q :: 0 <= p < q < i ==> StatusLe(a[p], a[q])
      invariant multiset(a[..]) == multiset(old(a[..]))
      invariant StableSort.SameTies(StatusCompare, a[..], old(a[..]))
    {
      SinkInto(a, i);
      i := i + 1;
    }
    assert a[..] == a[..a.Length];
  }

  /** `s` with its entries at `j - 1` and `j` exchanged. */
  function SwapDown(s: seq<UserStatus>, j: int): (r: seq<UserStatus>)
    requires 0 < j < |s|
    ensures |r| == |s| && r[j - 1] == s[j] && r[j] == s[j - 1]
    ensures forall k :: 0 <= k < |s| && k != j - 1 && k != j ==> r[k] == s[k]
  {
    s[j - 1 := s[j]][j := s[j - 1]]
  }

  /** Midway through sinking the entry now at `j` into `s[..i + 1]`:
      the other entries are in order and the sinking one may precede
      everything after it. */
  ghost predicate Sinking(s: seq<UserStatus>, i: int, j: int)
    requires 0 <= j <= i < |s|
  {
    (forall p, q :: 0 <= p < q <= i && p != j && q != j ==> StatusLe(s[p], s[q]))
    && (forall q :: j < q <= i ==> StatusLe(s[j], s[q]))
  }

  /** One swap of the sinking entry with the larger entry before it keeps
      the entries, their tie order and the sinking state. */
  lemma SinkStep(s: seq<UserStatus>, orig: seq<UserStatus>, i: int, j: int)
    requires 0 < j <= i < |s| && Sinking(s, i, j) && !StatusLe(s[j - 1], s[j])
    requires StableSort.SameTies(StatusCompare, s, orig)
    ensures Sinking(SwapDown(s, j), i, j - 1)
    ensures multiset(SwapDown(s, j)) == multiset(s)
    ensures StableSort.SameTies(StatusCompare, SwapDown(s, j), orig)
  {
    SinkStepOrder(s, i, j);
    SwapDownEntries(s, orig, j);
  }

  lemma SinkStepOrder(s: seq<UserStatus>, i: int, j: int)
    requires 0 < j <= i < |s| && Sinking(s, i, j) && !StatusLe(s[j - 1], s[j])
    ensures Sinking(SwapDown(s, j), i, j - 1)
  {
    var r := SwapDown(s, j);
    StatusLeTotal(s[j - 1], s[j]);
    forall q | j - 1 < q <= i
      ensures StatusLe(r[j - 1], r[q])
    {
      if q > j {
        assert StatusLe(s[j], s[q]);
      }
    }
  }

  lemma SwapDownEntries(s: seq<UserStatus>, orig: seq<UserStatus>, j: int)
    requires 0 < j < |s| && !StatusLe(s[j - 1], s[j])
    requires StableSort.SameTies(StatusCompare, s, orig)
    ensures multiset(SwapDown(s, j)) == multiset(s)
    ensures StableSort.SameTies(StatusCompare, SwapDown(s, j), orig)
  {
    var p, q := s[..j - 1], s[j + 1..];
    assert SwapDown(s, j) == p + [s[j], s[j - 1]] + q;
    assert s == p + [s[j - 1], s[j]] + q;
    StatusCompareIsTotalPreorder();
    StableSort.SwapKeepsTies(StatusCompare, s, j);
  }

  /** The sinking entry has come to rest: the whole prefix is in order. */
  lemma SinkDone(s: seq<UserStatus>, i: int, j: int)
    requires 0 <= j <= i < |s| && Sinking(s, i, j)
    requires j == 0 || StatusLe(s[j - 1], s[j])
    ensures forall p, q :: 0 <= p < q <= i ==> StatusLe(s[p], s[q])
  {
    forall p | 0 <= p < j
      ensures StatusLe(s[p], s[j])
    {
      if p < j - 1 {
        StatusLeTransitive(s[p], s[j - 1], s[j]);
      }
    }
  }

  /** One pass of the insertion sort: the entry at `i` is swapped down
      into the sorted entries before it. */
  method SinkInto(a: array<UserStatus>, i: int)
    requires 0 <= i < a.Length
    requires forall p, q :: 0 <= p < q < i ==> StatusLe(a[p], a[q])
    modifies a
    ensures forall p, q :: 0 <= p < q <= i ==> StatusLe(a[p], a[q])
    ensures multiset(a[..]) == multiset(old(a[..]))
    ensures StableSort.SameTies(StatusCompare, a[..], old(a[..]))
  {
    var j := i;
    while j > 0 && !StatusLe(a[j - 1], a[j])
      invariant 0 <= j <= i
      invariant Sinking(a[..], i, j)
      invariant multiset(a[..]) == multiset(old(a[..]))
      invariant StableSort.SameTies(StatusCompare, a[..], old(a[..]))
    {
      ghost var before := a[..];
      SinkStep(before, old(a[..]), i, j);
      a[j - 1], a[j] := a[j], a[j - 1];
      assert a[..] == SwapDown(before, j);
      j := j - 1;
    }
    SinkDone(a[..], i, j);
  }

  /** `s` is the entry for `user` given what the stores answered: email
      and names default to "", the project is looked up only when the user
      is online, and the storage is the sum over their projects. */
  predicate Describes(s: UserStatus, user: UserDoc, probe: UserProbe)
  {
    s.id == user.id && s.email == user.email.UnwrapOr("")
    && s.firstName == user.firstName.UnwrapOr("") && s.lastName == user.lastName.UnwrapOr("")
    && s.isOnline == IsUserOnline(probe.session)
    && (!s.isOnline ==> s.currentProject.None?)
    && (s.isOnline ==> s.currentProject == FirstQualifying(user.id, ScanKeys(probe.scan), probe.keyProbes))
    && s.storageUsed == DocStorage.StorageOf(probe.storage)
  }

  /** The entry built for one user. */
  method UserStatusOf(user: UserDoc, probe: UserProbe) returns (s: UserStatus)
    ensures Describes(s, user, probe)
  {
    var isOnline := IsUserOnline(probe.session);
    var currentProject := None;
    if isOnline {
      var _, project := GetUserCurrentProject(user.id, probe.scan, probe.keyProbes);
      currentProject := project;
    }
    var storageUsed := DocStorage.SumStorage(probe.storage);
    s := UserStatus(user.id, user.email.UnwrapOr(""), user.firstName.UnwrapOr(""),
                    user.lastName.UnwrapOr(""), isOnline, currentProject, storageUsed);
  }

  /** The order the list is sorted into puts every online user first, and
      users of the same status in email order. */
  lemma {:induction false} SortedOnlineFirst(s: seq<UserStatus>)
    requires SortedStatuses(s)
    ensures forall i, j :: 0 <= i < j < |s| && s[j].isOnline ==> s[i].isOnline
    ensures forall i, j :: 0 <= i < j < |s| && s[i].isOnline == s[j].isOnline
              ==> CompareStrings(s[i].email, s[j].email) <= 0
  {
    forall i, j | 0 <= i < j < |s|
      ensures s[j].isOnline ==> s[i].isOnline
      ensures s[i].isOnline == s[j].isOnline ==> CompareStrings(s[i].email, s[j].email) <= 0
    {
      assert StatusLe(s[i], s[j]);
    }
  }

  /** `getAllUsersWithStatus`: the entries of all users, sorted
      online-first then by email, and the number of online users.
      `probes[i]` answers for `users[i]`. */
  method GetAllUsersWithStatus(users: seq<UserDoc>, probes: seq<UserProbe>)
    returns (result: seq<UserStatus>, onlineCount: nat)
    requires |probes| == |users|
    ensures SortedStatuses(result)
    ensures exists built: seq<UserStatus> :: |built| == |users|
              && (forall i :: 0 <= i < |users| ==> Describes(built[i], users[i], probes[i]))
              && multiset(result) == multiset(built)
              && StableSort.SameTies(StatusCompare, result, built)
    ensures onlineCount == Count(result, (u: UserStatus) => u.isOnline)
  {
    var built: seq<UserStatus> := [];
    var i := 0;
    while i < |users|
      invariant 0 <= i <= |users| && |built| == i
      invariant forall k :: 0 <= k < i ==> Describes(built[k], users[k], probes[k])
    {
      var entry := UserStatusOf(users[i], probes[i]);
      built := built + [entry];
      i := i + 1;
    }
    var statuses := new UserStatus[|built|](k requires 0 <= k < |built| => built[k]);
    assert statuses[..] == built;
    SortStatuses(statuses);
    result := statuses[..];
    onlineCount := |Filter(result, (u: UserStatus) => u.isOnline)|;
  }

  /** Every user appears in the list with their own email, status and
      storage, and offline users carry no project. */
  lemma EveryUserListed(users: seq<UserDoc>, probes: seq<UserProbe>, built: seq<UserStatus>,
                        result: seq<UserStatus>)
    requires |probes| == |users| == |built|
    requires forall i :: 0 <= i < |users| ==> Describes(built[i], users[i], probes[i])
    requires multiset(result) == multiset(built)
    ensures |result| == |users|
    ensures forall u :: u in result && !u.isOnline ==> u.currentProject.None?
    ensures forall i :: 0 <= i < |users| ==> Describes(built[i], users[i], probes[i]) && built[i] in result
  {
    assert |result| == |multiset(result)| == |multiset(built)| == |built|;
    forall u | u in result
      ensures !u.isOnline ==> u.currentProject.None?
    {
      assert u in multiset(result);
      var k :| 0 <= k < |built| && built[k] == u;
      assert Describes(built[k], users[k], probes[k]);
    }
    forall k | 0 <= k < |users|
      ensures built[k] in result
    {
      assert built[k] in multiset(built);
    }
  }
}
