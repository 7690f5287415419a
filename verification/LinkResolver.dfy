/** Following symbolic links on a device that does not change meanwhile. */
module LinkResolver {
  import opened Wrappers

  const MAX_LINK_RESOLVE_DEPTH: nat := 64
  const READLINK_INVALID_ARGUMENT := "readlink: Invalid argument"
  const READLINK_PERMISSION_DENIED := "readlink: Permission denied"

  datatype Entry = Entry(isLink: bool, attrs: nat)

  /** The paths that can be stat'ed, and what the readlink command prints where it does not fail. */
  datatype Device = Device(entries: map<string, Entry>, output: map<string, string>)

  datatype LinkError = NotALink | NoPermission | CommandFails

  datatype LinkResult = Target(path: string) | LinkError(error: LinkError)

  function Stat(d: Device, path: string): Option<Entry> {
    if path in d.entries then Some(d.entries[path]) else None
  }

  function TrimSuffix(s: string, suffix: string): (r: string)
    ensures r == s || r + suffix == s
  {
    if |s| >= |suffix| && s[|s| - |suffix|..] == suffix then s[..|s| - |suffix|] else s
  }

  function ReadLink(d: Device, path: string): LinkResult {
    if path !in d.output then LinkError(CommandFails)
    else
      var result := TrimSuffix(d.output[path], "\r\n");
      if result == READLINK_INVALID_ARGUMENT then LinkError(NotALink)
      else if result == READLINK_PERMISSION_DENIED then LinkError(NoPermission)
      else Target(result)
  }

  /** The device ends its line with CR LF: a message of the command is an error, anything else a target,
      without the line end. A line that ends otherwise is taken as it is. */
  lemma LineIsRead(d: Device, path: string, line: string)
    requires path in d.output
    requires d.output[path] == line + "\r\n" || (d.output[path] == line && (|line| < 2 || line[|line| - 2..] != "\r\n"))
    ensures line == "readlink: Invalid argument" ==> ReadLink(d, path) == LinkError(NotALink)
    ensures line == "readlink: Permission denied" ==> ReadLink(d, path) == LinkError(NoPermission)
    ensures line != "readlink: Invalid argument" && line != "readlink: Permission denied" ==>
              ReadLink(d, path) == Target(line)
  {
    var end := "\r\n";
    assert (line + end)[|line|..] == end && (line + end)[..|line|] == line;
  }

  lemma CommandFailureIsReported(d: Device, path: string)
    ensures ReadLink(d, path) == LinkError(CommandFails) <==> path !in d.output
  {
  }

  predicate IsLink(d: Device, path: string) {
    Stat(d, path).Some? && Stat(d, path).value.isLink
  }

  /** The path `n` links further on, if that many links can be followed. */
  function Nth(d: Device, path: string, n: nat): Option<string> {
    if n == 0 then Some(path)
    else
      match Nth(d, path, n - 1)
      case None => None
      case Some(p) =>
        if IsLink(d, p) && ReadLink(d, p).Target? then Some(ReadLink(d, p).path) else None
  }

  datatype Resolution = Resolved(path: string, entry: Entry) | StatFailed | LinkFailed(error: LinkError) | TooDeep

  predicate LinkAt(d: Device, path: string, n: nat) {
    Nth(d, path, n).Some? && IsLink(d, Nth(d, path, n).value)
  }

  /** What the `n`-th path of the chain makes of the resolution, if it ends there: no file, a file that
      is no link, one link too many, or a link that cannot be read. */
  predicate EndsAt(d: Device, start: string, n: nat, r: Resolution) {
    n <= 65 && Nth(d, start, n).Some? &&
    var path := Nth(d, start, n).value;
    match Stat(d, path)
    case None => r == StatFailed
    case Some(entry) =>
      if !entry.isLink then r == Resolved(path, entry)
      else if n == 65 then r == TooDeep
      else ReadLink(d, path).LinkError? && r == LinkFailed(ReadLink(d, path).error)
  }

  predicate Ends(d: Device, start: string, r: Resolution) {
    exists n | 0 <= n <= 65 :: EndsAt(d, start, n, r)
  }

  /** `stats` and `links` count the device calls. */
  method ReadLinkRecursively(d: Device, start: string) returns (r: Resolution, ghost stats: nat, ghost links: nat)
    ensures forall q :: q == r <==> Ends(d, start, q)
    ensures links <= 65 && stats == if r.LinkFailed? then links else links + 1
    ensures if r.LinkFailed? then links > 0 && EndsAt(d, start, links - 1, r) else EndsAt(d, start, links, r)
  {
    hide ReadLink;
    var path, currentDepth := start, 0;
    stats, links := 1, 0;
    var entry := Stat(d, path);
    if entry.None? {
      OnlyEnd(d, start, 0, StatFailed);
      return StatFailed, stats, links;
    }
    while entry.value.isLink
      invariant currentDepth == links <= 65 && stats == links + 1
      invariant Nth(d, start, links) == Some(path) && entry == Stat(d, path) && entry.Some?
      decreases 65 - currentDepth
    {
      if currentDepth > MAX_LINK_RESOLVE_DEPTH {
        OnlyEnd(d, start, links, TooDeep);
        return TooDeep, stats, links;
      }
      currentDepth := currentDepth + 1;
      var target := ReadLink(d, path);
      links := links + 1;
      if target.LinkError? {
        OnlyEnd(d, start, links - 1, LinkFailed(target.error));
        return LinkFailed(target.error), stats, links;
      }
      path := target.path;
      entry := Stat(d, path);
      stats := stats + 1;
      if entry.None? {
        OnlyEnd(d, start, links, StatFailed);
        return StatFailed, stats, links;
      }
    }
    r := Resolved(path, entry.value);
    OnlyEnd(d, start, links, r);
  }

  // ----- what the outcome means -----

  lemma {:induction false} EarlierLinks(d: Device, start: string, m: nat, n: nat)
    requires m < n && Nth(d, start, n).Some?
    ensures LinkAt(d, start, m) && ReadLink(d, Nth(d, start, m).value).Target?
    decreases n
  {
    if m < n - 1 {
      EarlierLinks(d, start, m, n - 1);
    }
  }

  /** A chain ends in one place and in one way. So the resolver finds a target if and only if the
      chain reaches it within 65 links. */
  lemma EndIsUnique(d: Device, start: string, m: nat, q: Resolution, n: nat, r: Resolution)
    requires EndsAt(d, start, m, q) && EndsAt(d, start, n, r)
    ensures m == n && q == r
  {
    if m < n {
      EarlierLinks(d, start, m, n);
    } else if n < m {
      EarlierLinks(d, start, n, m);
    }
  }

  lemma OnlyEnd(d: Device, start: string, n: nat, r: Resolution)
    requires EndsAt(d, start, n, r)
    ensures forall q :: q == r <==> Ends(d, start, q)
  {
    forall q, m | 0 <= m <= 65 && EndsAt(d, start, m, q)
      ensures q == r
    {
      EndIsUnique(d, start, m, q, n, r);
    }
  }

  lemma {:induction false} NthAdds(d: Device, start: string, m: nat, n: nat)
    requires Nth(d, start, m).Some?
    ensures Nth(d, start, m + n) == Nth(d, Nth(d, start, m).value, n)
    decreases n
  {
    if n > 0 {
      NthAdds(d, start, m, n - 1);
    }
  }

  lemma {:induction false} CycleNeverEnds(d: Device, start: string, i: nat, j: nat, k: nat)
    requires i < j && Nth(d, start, j).Some? && Nth(d, start, i) == Nth(d, start, j)
    ensures LinkAt(d, start, k)
    decreases k
  {
    hide ReadLink;
    if k < j {
      EarlierLinks(d, start, k, j);
    } else {
      NthAdds(d, start, j, k - j);
      NthAdds(d, start, i, k - j);
      CycleNeverEnds(d, start, i, j, k - (j - i));
    }
  }

  /** The chain is too deep exactly when its 66th path is still a link; in particular when it comes back
      to a path it has been through, however long the cycle. */
  lemma TooDeepExactly(d: Device, start: string, n: nat, r: Resolution)
    requires EndsAt(d, start, n, r)
    ensures r == TooDeep <==> LinkAt(d, start, 65)
    ensures (exists i: nat, j: nat :: i < j && Nth(d, start, j).Some? && Nth(d, start, i) == Nth(d, start, j)) ==> r == TooDeep
  {
    if LinkAt(d, start, 65) {
      EndIsUnique(d, start, n, r, 65, TooDeep);
    }
    if i: nat, j: nat :| i < j && Nth(d, start, j).Some? && Nth(d, start, i) == Nth(d, start, j) {
      CycleNeverEnds(d, start, i, j, 65);
      EndIsUnique(d, start, n, r, 65, TooDeep);
    }
  }

  /** The limit lets through one link more than the constant says: any chain of 65 links resolves. */
  lemma SixtyFiveLinksResolve(d: Device, start: string, target: string, entry: Entry, n: nat, r: Resolution)
    requires Nth(d, start, 65) == Some(target) && Stat(d, target) == Some(entry) && !entry.isLink
    requires EndsAt(d, start, n, r)
    ensures r == Resolved(target, entry)
  {
    EndIsUnique(d, start, n, r, 65, Resolved(target, entry));
  }

  // ----- such a chain -----

  /** The path of `n + 1` letters. */
  function Letters(n: nat): string {
    seq(n + 1, _ => 'a')
  }

  function Paths(count: nat): set<string> {
    set n: nat | n < count :: Letters(n)
  }

  /** 65 links, each printed as a path one letter longer, and a file at the end. */
  function Chain(): Device {
    Device(map p | p in Paths(66) :: Entry(|p| <= 65, 0), map p | p in Paths(65) :: Letters(|p|) + "\r\n")
  }

  lemma ChainStep(n: nat)
    requires n <= 65
    ensures Stat(Chain(), Letters(n)) == Some(Entry(n < 65, 0))
    ensures n < 65 ==> ReadLink(Chain(), Letters(n)) == Target(Letters(n + 1))
  {
    assert Letters(n) in Paths(66) && |Letters(n)| == n + 1;
    if n < 65 {
      var target := Letters(n + 1);
      assert Letters(n) in Paths(65) && Chain().output[Letters(n)] == target + "\r\n";
      assert target[0] == 'a' && "readlink: Invalid argument"[0] == 'r' && "readlink: Permission denied"[0] == 'r';
      LineIsRead(Chain(), Letters(n), target);
    }
  }

  lemma {:induction false} ChainNth(n: nat)
    requires n <= 65
    ensures Nth(Chain(), Letters(0), n) == Some(Letters(n))
  {
    if n > 0 {
      ChainNth(n - 1);
      ChainStep(n - 1);
    }
  }

  /** A chain that is one link longer than the limit, and resolves. */
  lemma ResolvesPastTheLimit()
    ensures EndsAt(Chain(), Letters(0), MAX_LINK_RESOLVE_DEPTH + 1, Resolved(Letters(65), Entry(false, 0)))
  {
    ChainNth(65);
    ChainStep(65);
  }
}
