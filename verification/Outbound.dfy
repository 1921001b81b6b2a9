/**
 * What leaves for other services, backend/src/http.rs: the credentials an address carries, masked and
 * put back, and the redirects a request follows.
 */
module Outbound {
  import opened Options
  import opened Texts

  // ----- the credentials of an address

  const MASKED_CREDENTIALS: string := "***"

  /** Where `://` first stands. */
  function Scheme(s: string): (at: Option<nat>)
    ensures at.Some? ==> at.value + 3 <= |s| && s[at.value..at.value + 3] == "://"
  {
    if |s| < 3 then None
    else if s[..3] == "://" then Some(0)
    else match Scheme(s[1..]) case None => None case Some(i) => Some(i + 1)
  }

  predicate Ends(c: char) {
    c == '/' || c == '?' || c == '#'
  }

  /** The authority `s` opens with. */
  function Authority(s: string): (authority: string)
    ensures authority <= s && forall i | 0 <= i < |authority| :: !Ends(authority[i])
    ensures |authority| < |s| ==> Ends(s[|authority|])
  {
    if s == "" || Ends(s[0]) then "" else [s[0]] + Authority(s[1..])
  }

  /** Where `c` last stands. */
  function FindLast(s: string, c: char): (at: Option<nat>)
    ensures at.None? <==> c !in s
    ensures at.Some? ==> at.value < |s| && s[at.value] == c && c !in s[at.value + 1..]
  {
    if s == "" then None
    else if s[|s| - 1] == c then Some(|s| - 1)
    else FindLast(s[..|s| - 1], c)
  }

  /** An address cut around its credentials. */
  datatype Cut = Cut(head: string, credentials: string, tail: string)

  /** The rest of an address, behind its scheme, cut at the last `@` of the authority. */
  function CutRest(head: string, rest: string): Option<Cut> {
    match FindLast(Authority(rest), '@')
    case None => None
    case Some(at) => Some(Cut(head, rest[..at], rest[at + 1..]))
  }

  function Credentials(address: string): Option<Cut> {
    match Scheme(address)
    case None => None
    case Some(scheme) => CutRest(address[..scheme + 3], address[scheme + 3..])
  }

  function Joined(head: string, credentials: string, tail: string): string {
    head + (credentials + ['@'] + tail)
  }

  function Masked(address: string): string {
    match Credentials(address)
    case Some(cut) => Joined(cut.head, MASKED_CREDENTIALS, cut.tail)
    case None => address
  }

  function WithoutCredentials(address: string): string {
    match Credentials(address)
    case Some(cut) => cut.head + cut.tail
    case None => address
  }

  /** `typed` with the credentials of `saved` in the place of the mask. */
  function WithSavedCredentials(typed: string, saved: string): Option<string> {
    match Credentials(typed)
    case None => None
    case Some(shown) =>
      if shown.credentials != MASKED_CREDENTIALS then None
      else
        match Credentials(saved)
        case Some(kept) => Some(Joined(shown.head, kept.credentials, shown.tail))
        case None => Some(shown.head + shown.tail)
  }

  // ----- what cutting and joining give back

  /** A head is what stands up to the first `://`, included. */
  ghost predicate Head(head: string) {
    |head| >= 3 && Scheme(head) == Some(|head| - 3)
  }

  /** A tail opens with an authority that carries no credentials. */
  ghost predicate Bare(tail: string) {
    '@' !in Authority(tail)
  }

  ghost predicate Hidden(credentials: string) {
    forall i | 0 <= i < |credentials| :: !Ends(credentials[i])
  }

  lemma {:induction false} SchemeStays(head: string, more: string)
    requires Scheme(head).Some?
    ensures Scheme(head + more) == Scheme(head)
  {
    if head[..3] == "://" {
      assert (head + more)[..3] == head[..3];
    } else {
      assert (head + more)[..3] == head[..3];
      assert (head + more)[1..] == head[1..] + more;
      SchemeStays(head[1..], more);
    }
  }

  lemma {:induction false} SchemeOfStart(s: string)
    requires Scheme(s).Some?
    ensures Head(s[..Scheme(s).value + 3])
  {
    var start := Scheme(s).value + 3;
    if s[..3] == "://" {
      assert s[..start][..3] == "://";
    } else {
      SchemeOfStart(s[1..]);
      assert s[..start][..3] == s[..3];
      assert s[..start][1..] == s[1..][..start - 1];
    }
  }

  lemma {:induction false} AuthorityPast(hidden: string, more: string)
    requires Hidden(hidden)
    ensures Authority(hidden + more) == hidden + Authority(more)
  {
    if hidden == "" {
      assert hidden + more == more;
    } else {
      assert (hidden + more)[1..] == hidden[1..] + more;
      AuthorityPast(hidden[1..], more);
    }
  }

  lemma {:induction false} LastBefore(front: string, c: char, back: string)
    requires c !in back
    ensures FindLast(front + [c] + back, c) == Some(|front|)
    decreases |back|
  {
    var s := front + [c] + back;
    if back != "" {
      LastBefore(front, c, back[..|back| - 1]);
      assert s[..|s| - 1] == front + [c] + back[..|back| - 1];
    }
  }

  lemma CutAfterHead(head: string, rest: string)
    requires Head(head)
    ensures Credentials(head + rest) == CutRest(head, rest)
  {
    SchemeStays(head, rest);
    assert (head + rest)[..|head|] == head && (head + rest)[|head|..] == rest;
  }

  lemma CutOfJoined(head: string, credentials: string, tail: string)
    requires Hidden(credentials) && Bare(tail)
    ensures CutRest(head, credentials + ['@'] + tail) == Some(Cut(head, credentials, tail))
  {
    var rest := credentials + ['@'] + tail;
    AuthorityPast(credentials + ['@'], tail);
    LastBefore(credentials, '@', Authority(tail));
    assert rest[..|credentials|] == credentials && rest[|credentials| + 1..] == tail;
  }

  /** Credentials put between a head and a bare tail are the ones cut out again. */
  lemma JoinedThenCut(head: string, credentials: string, tail: string)
    requires Head(head) && Hidden(credentials) && Bare(tail)
    ensures Credentials(Joined(head, credentials, tail)) == Some(Cut(head, credentials, tail))
  {
    CutAfterHead(head, credentials + ['@'] + tail);
    CutOfJoined(head, credentials, tail);
  }

  lemma BareAfterTheLast(front: string, tail: string)
    requires Hidden(front) && front != "" && FindLast(Authority(front + tail), '@') == Some(|front| - 1)
    ensures Bare(tail)
  {
    var authority := front + Authority(tail);
    AuthorityPast(front, tail);
    assert Authority(front + tail) == authority;
    assert authority[|front|..] == Authority(tail);
  }

  lemma HiddenBeforeTheLast(rest: string, authority: string, at: nat)
    requires authority == Authority(rest) && FindLast(authority, '@') == Some(at)
    ensures at < |authority| <= |rest| && rest[at] == '@' && Hidden(rest[..at]) && authority[..at + 1] == rest[..at + 1]
  {
    assert forall i | 0 <= i < |authority| :: rest[i] == authority[i] && !Ends(authority[i]);
  }

  lemma RestOfCut(rest: string, front: string, tail: string)
    requires rest == front + tail && front != "" && Hidden(front)
    requires FindLast(Authority(rest), '@') == Some(|front| - 1)
    ensures Bare(tail)
  {
    BareAfterTheLast(front, tail);
  }

  /** What is cut is a head, credentials and a bare tail, and joins again. */
  lemma CutThenJoined(address: string)
    requires Credentials(address).Some?
    ensures var cut := Credentials(address).value;
      Head(cut.head) && Hidden(cut.credentials) && Bare(cut.tail) &&
      address == Joined(cut.head, cut.credentials, cut.tail)
  {
    var start := Scheme(address).value + 3;
    SchemeOfStart(address);
    var rest := address[start..];
    var at := FindLast(Authority(rest), '@').value;
    HiddenBeforeTheLast(rest, Authority(rest), at);
    SplitAt(rest, at);
    HiddenWithTheSign(rest[..at]);
    RestOfCut(rest, rest[..at] + ['@'], rest[at + 1..]);
    JoinsAgain(address, start, at);
  }

  lemma SplitAt(rest: string, at: nat)
    requires at < |rest| && rest[at] == '@'
    ensures rest == rest[..at] + ['@'] + rest[at + 1..]
  {
  }

  lemma HiddenWithTheSign(credentials: string)
    requires Hidden(credentials)
    ensures Hidden(credentials + ['@'])
  {
  }

  lemma JoinsAgain(address: string, start: nat, at: nat)
    requires start + at < |address| && address[start + at] == '@'
    ensures address == Joined(address[..start], address[start..][..at], address[start..][at + 1..])
  {
  }

  predicate SchemeAt(s: string, i: nat) {
    i + 3 <= |s| && s[i..i + 3] == "://"
  }

  /** Closed by the first `://` there is. */
  ghost predicate ClosedByScheme(head: string) {
    |head| >= 3 && forall i: nat :: SchemeAt(head, i) <==> i == |head| - 3
  }

  /** Before any `@` of it stands a character that ends an authority. */
  ghost predicate NamesNobody(tail: string) {
    forall i | 0 <= i < |tail| && tail[i] == '@' :: exists j | 0 <= j < i :: tail[j] in "/?#"
  }

  /** What is found is the first there is. */
  lemma {:induction false} SchemeIsFirst(s: string)
    ensures Scheme(s).None? ==> forall i: nat :: !SchemeAt(s, i)
    ensures Scheme(s).Some? ==> SchemeAt(s, Scheme(s).value) && forall i | 0 <= i < Scheme(s).value :: !SchemeAt(s, i)
  {
    if |s| >= 3 {
      assert s[0..3] == s[..3];
      if s[..3] != "://" {
        SchemeIsFirst(s[1..]);
        forall i: nat | i > 0 ensures SchemeAt(s, i) == SchemeAt(s[1..], i - 1) {
          assert i + 3 <= |s| ==> s[i..i + 3] == s[1..][i - 1..i + 2];
        }
      }
    }
  }

  lemma HeadIsClosed(head: string)
    ensures Head(head) <==> ClosedByScheme(head)
  {
    SchemeIsFirst(head);
    if ClosedByScheme(head) {
      assert SchemeAt(head, |head| - 3);
    }
  }

  lemma BareNamesNobody(tail: string)
    ensures Bare(tail) <==> NamesNobody(tail)
  {
    var authority := Authority(tail);
    EndsAre();
    assert forall k | 0 <= k < |authority| :: tail[k] == authority[k] && !Ends(authority[k]);
    if '@' in authority {
      var i :| 0 <= i < |authority| && authority[i] == '@';
      assert tail[i] == '@';
    } else {
      forall i | 0 <= i < |tail| && tail[i] == '@' ensures exists j | 0 <= j < i :: tail[j] in "/?#" {
        assert i >= |authority|;
        assert Ends(tail[|authority|]);
      }
    }
  }

  lemma EndsAre()
    ensures forall c :: Ends(c) <==> c in "/?#"
  {
  }

  /**
   * What an address carries is what stands after its first `://` and before the last `@` that none of
   * `/`, `?` and `#` comes before.
   */
  lemma CarriedExactly(address: string, cut: Cut)
    ensures Credentials(address) == Some(cut) <==>
      (address == cut.head + cut.credentials + "@" + cut.tail && ClosedByScheme(cut.head) &&
      (forall c | c in cut.credentials :: c !in "/?#") && NamesNobody(cut.tail))
  {
    HeadIsClosed(cut.head);
    BareNamesNobody(cut.tail);
    EndsAre();
    assert cut.head + cut.credentials + "@" + cut.tail == Joined(cut.head, cut.credentials, cut.tail);
    if Credentials(address) == Some(cut) {
      CutThenJoined(address);
      forall c | c in cut.credentials ensures c !in "/?#" {
        var i :| 0 <= i < |cut.credentials| && cut.credentials[i] == c;
        assert !Ends(cut.credentials[i]);
      }
    }
    if address == Joined(cut.head, cut.credentials, cut.tail) && Head(cut.head) && Bare(cut.tail) &&
      forall c | c in cut.credentials :: c !in "/?#"
    {
      forall i | 0 <= i < |cut.credentials| ensures !Ends(cut.credentials[i]) {
        assert cut.credentials[i] in cut.credentials;
      }
      JoinedThenCut(cut.head, cut.credentials, cut.tail);
    }
  }

  lemma MaskIsHidden()
    ensures Hidden(MASKED_CREDENTIALS)
  {
  }

  lemma MaskPutAndCut(cut: Cut)
    requires Head(cut.head) && Bare(cut.tail)
    ensures Credentials(Joined(cut.head, MASKED_CREDENTIALS, cut.tail)) == Some(cut.(credentials := MASKED_CREDENTIALS))
  {
    MaskIsHidden();
    JoinedThenCut(cut.head, MASKED_CREDENTIALS, cut.tail);
  }

  /** The mask keeps what surrounds the credentials, and nothing of them; masked twice is masked once. */
  lemma MaskedIsCut(address: string)
    requires Credentials(address).Some?
    ensures Credentials(Masked(address)) == Some(Credentials(address).value.(credentials := MASKED_CREDENTIALS))
    ensures Masked(Masked(address)) == Masked(address)
  {
    CutThenJoined(address);
    MaskPutAndCut(Credentials(address).value);
  }

  /** Two addresses alike but for their credentials are masked alike. */
  lemma MaskTellsNothing(head: string, a: string, b: string, tail: string)
    requires Head(head) && Bare(tail) && Hidden(a) && Hidden(b)
    ensures Masked(Joined(head, a, tail)) == Masked(Joined(head, b, tail))
  {
    JoinedThenCut(head, a, tail);
    JoinedThenCut(head, b, tail);
  }

  /** The address shown masked, and sent back as it was shown, is the one saved. */
  lemma SavedComesBack(address: string)
    requires Credentials(address).Some?
    ensures WithSavedCredentials(Masked(address), address) == Some(address)
  {
    MaskedIsCut(address);
    CutThenJoined(address);
  }

  /** Moved elsewhere with the mask kept, an address carries the credentials saved and no others. */
  lemma SavedMoves(typed: string, saved: string)
    requires Credentials(typed).Some? && Credentials(typed).value.credentials == MASKED_CREDENTIALS
    ensures var moved := WithSavedCredentials(typed, saved);
      moved.Some? &&
      Credentials(moved.value) ==
        match Credentials(saved)
        case Some(kept) => Some(Credentials(typed).value.(credentials := kept.credentials))
        case None => None
    ensures Credentials(saved).None? ==>
      WithSavedCredentials(typed, saved) == Some(Credentials(typed).value.head + Credentials(typed).value.tail)
  {
    var shown := Credentials(typed).value;
    CutThenJoined(typed);
    match Credentials(saved)
    case Some(kept) =>
      CutThenJoined(saved);
      JoinedThenCut(shown.head, kept.credentials, shown.tail);
    case None =>
      BareCarriesNone(shown.head, shown.tail);
  }

  /** What was typed anew is kept as typed: credentials saved come back for the mask alone. */
  lemma OnlyForTheMask(typed: string, saved: string)
    ensures WithSavedCredentials(typed, saved).Some? <==>
      exists head, tail :: Credentials(typed) == Some(Cut(head, "***", tail))
  {
    if WithSavedCredentials(typed, saved).Some? {
      var cut := Credentials(typed).value;
      assert Credentials(typed) == Some(Cut(cut.head, "***", cut.tail));
    }
  }

  lemma BareCarriesNone(head: string, tail: string)
    requires Head(head) && Bare(tail)
    ensures Credentials(head + tail) == None
  {
    SchemeStays(head, tail);
    assert (head + tail)[|head|..] == tail;
  }

  /** An address stripped is what surrounded its credentials, and carries none. */
  lemma StrippedCarriesNone(address: string)
    ensures Credentials(WithoutCredentials(address)) == None
    ensures forall head, credentials, tail | Credentials(address) == Some(Cut(head, credentials, tail)) ::
      WithoutCredentials(address) == head + tail
    ensures Credentials(address).None? ==> WithoutCredentials(address) == address
  {
    if Credentials(address).Some? {
      CutThenJoined(address);
      BareCarriesNone(Credentials(address).value.head, Credentials(address).value.tail);
    }
  }

  // ----- redirects

  /** The host in lower case, and the port, that of the scheme when none is written. */
  datatype Url = Url(scheme: string, host: Option<string>, port: Option<nat>)

  predicate StaysOnOrigin(previous: Url, to: Url) {
    previous.host.Some? && to.host.Some? && previous.host.value == to.host.value &&
    ((previous.scheme == to.scheme && previous.port == to.port) ||
     (previous.scheme == "http" && to.scheme == "https" &&
      (previous.port == to.port || (previous.port == Some(80) && to.port == Some(443)))))
  }

  datatype Decision = Follow | Stop | TooMany

  /** `visited` is every address of the request so far, the one redirecting last. */
  function Decide(visited: seq<Url>, to: Url): Decision {
    if visited == [] || !StaysOnOrigin(visited[|visited| - 1], to) then Stop
    else if |visited| > 5 then TooMany
    else Follow
  }

  /** Every redirect of the chain was followed. */
  ghost predicate Followed(chain: seq<Url>) {
    chain != [] && forall i | 0 < i < |chain| :: Decide(chain[..i], chain[i]) == Follow
  }

  /** Up to `n` every address is of one scheme and port; from there on each is of https, and of one port. */
  predicate UpgradedAt(chain: seq<Url>, n: nat) {
    0 < n <= |chain| &&
    (forall i | 0 <= i < n :: chain[i].scheme == chain[0].scheme && chain[i].port == chain[0].port) &&
    (n < |chain| ==> chain[0].scheme == "http") &&
    (forall i | n <= i < |chain| :: chain[i].scheme == "https" && chain[i].port == chain[n].port) &&
    (n < |chain| ==> chain[n].port == chain[0].port || (chain[0].port == Some(80) && chain[n].port == Some(443)))
  }

  predicate OfOneHost(chain: seq<Url>) {
    |chain| > 1 ==> forall i | 0 <= i < |chain| :: chain[i].host.Some? && chain[i].host == chain[0].host
  }

  /**
   * A chain is followed exactly when it asks six addresses at most, of one host, and goes from http to https
   * at most once, where the port stays or goes from 80 to 443.
   */
  lemma FollowedExactly(chain: seq<Url>)
    ensures Followed(chain) <==> 0 < |chain| <= 6 && OfOneHost(chain) && exists n: nat :: UpgradedAt(chain, n)
  {
    if Followed(chain) {
      FewAreFollowed(chain);
      FollowedUpgradesOnce(chain);
    }
    if 0 < |chain| <= 6 && OfOneHost(chain) {
      if n: nat :| UpgradedAt(chain, n) {
        forall i | 0 < i < |chain| ensures Decide(chain[..i], chain[i]) == Follow {
          OneUpgradeStays(chain, n, i);
        }
      }
    }
  }

  lemma OneUpgradeStays(chain: seq<Url>, n: nat, i: nat)
    requires UpgradedAt(chain, n) && OfOneHost(chain) && 0 < i < |chain|
    ensures StaysOnOrigin(chain[i - 1], chain[i])
  {
  }

  lemma {:induction false} FollowedUpgradesOnce(chain: seq<Url>)
    requires Followed(chain)
    ensures OfOneHost(chain) && exists n: nat :: UpgradedAt(chain, n)
    decreases |chain|
  {
    if |chain| == 1 {
      assert UpgradedAt(chain, 1);
    } else {
      var front := chain[..|chain| - 1];
      OneMoreFollowed(chain);
      FollowedUpgradesOnce(front);
      OneMoreOfTheHost(chain);
      var n: nat :| UpgradedAt(front, n);
      OneMoreUpgraded(chain, n);
    }
  }

  lemma OneMoreFollowed(chain: seq<Url>)
    requires |chain| > 1 && Followed(chain)
    ensures Followed(chain[..|chain| - 1]) && StaysOnOrigin(chain[|chain| - 2], chain[|chain| - 1])
  {
    var last := |chain| - 1;
    forall i | 0 < i < last ensures Decide(chain[..last][..i], chain[i]) == Follow {
      assert Decide(chain[..i], chain[i]) == Follow && chain[..last][..i] == chain[..i];
    }
    assert Decide(chain[..last], chain[last]) == Follow;
  }

  lemma OneMoreOfTheHost(chain: seq<Url>)
    requires |chain| > 1 && OfOneHost(chain[..|chain| - 1])
    requires StaysOnOrigin(chain[|chain| - 2], chain[|chain| - 1])
    ensures OfOneHost(chain)
  {
    var last := |chain| - 1;
    assert forall i | 0 <= i < last :: chain[..last][i] == chain[i];
    forall i | 0 <= i < |chain| ensures chain[i].host.Some? && chain[i].host == chain[0].host {
      assert chain[..last][last - 1] == chain[last - 1];
      assert i < last ==> chain[..last][i] == chain[i];
    }
  }

  lemma OneMoreUpgraded(chain: seq<Url>, n: nat)
    requires |chain| > 1 && UpgradedAt(chain[..|chain| - 1], n)
    requires StaysOnOrigin(chain[|chain| - 2], chain[|chain| - 1])
    ensures exists m: nat :: UpgradedAt(chain, m)
  {
    var last := |chain| - 1;
    if n == last && chain[last].scheme == chain[0].scheme {
      assert UpgradedAt(chain, last + 1);
    } else {
      assert UpgradedAt(chain, n);
    }
  }

  /** Of a redirect that keeps the origin, the one after six addresses is refused; any other is left as an answer. */
  lemma RefusedAfterSix(chain: seq<Url>, to: Url)
    requires Followed(chain)
    ensures Decide(chain, to) == TooMany <==> |chain| == 6 && StaysOnOrigin(chain[5], to)
    ensures Decide(chain, to) == Stop <==> !StaysOnOrigin(chain[|chain| - 1], to)
  {
    FewAreFollowed(chain);
  }

  /** Six addresses at most are asked. */
  lemma FewAreFollowed(chain: seq<Url>)
    requires Followed(chain)
    ensures |chain| <= 6
  {
    assert |chain| > 6 ==> |chain[..6]| == 6 && Decide(chain[..6], chain[6]) == Follow;
  }

  /**
   * However many redirects are followed, the host stays, https never becomes anything else, and the
   * port stays, or goes once from 80 to 443.
   */
  lemma {:induction false} FollowedStaysPut(chain: seq<Url>, i: nat, j: nat)
    requires Followed(chain) && i <= j < |chain|
    ensures chain[i].host == chain[j].host
    ensures chain[i].scheme == chain[j].scheme || (chain[i].scheme == "http" && chain[j].scheme == "https")
    ensures chain[i].scheme == chain[j].scheme ==> chain[i].port == chain[j].port
    ensures chain[i].port == chain[j].port || (chain[i].port == Some(80) && chain[j].port == Some(443) &&
      chain[i].scheme == "http" && chain[j].scheme == "https")
    decreases j - i
  {
    if i < j {
      FollowedStaysPut(chain, i, j - 1);
      assert Decide(chain[..j], chain[j]) == Follow;
      assert chain[..j][j - 1] == chain[j - 1];
    }
  }
}
