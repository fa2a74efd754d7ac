/** The identity resolver (`getCurrentUsername`) and the login check
    (`isLoggedIn`), over what the page's selectors and storage give. */
module Identity {
  import opened Text

  /** The avatar `img` inside the user-menu toggle: its `alt` and `src` ("" when absent). */
  datatype AvatarImg = AvatarImg(alt: string, src: string)

  /** What `getCurrentUsername` and `isLoggedIn` read from the page. */
  datatype Page = Page(
    /** `.header-dropdown-toggle.current-user`, with its `img` if it has one */
    userMenu: Option<Option<AvatarImg>>,
    /** `title` of `.current-user img[title]` */
    avatarTitle: Option<string>,
    /** `href` of `a.current-user, .header-dropdown-toggle.current-user a`, when the link and the attribute exist */
    userLinkHref: Option<string>,
    /** `window.location.pathname` */
    pathname: string,
    /** `username` of the JSON under `discourse_current_user` in local storage; None when
        the entry is missing, does not parse, or has no such field */
    storedUsername: Option<string>,
    /** a `.login-button, .sign-up-button` is present and rendered (`offsetParent !== null`) */
    loginButtonVisible: bool)

  // ---------------------------------------------------------------- the two avatar URL patterns

  /** A run of non-`/` characters starting at `j` and closed by a `/`: the
      position of that `/`. This is `([^/]+)\/` matched at `j`. */
  function Segment(s: string, j: nat): (e: Option<nat>)
    ensures e.Some? ==> j < e.value < |s| && s[e.value] == '/' && '/' !in s[j..e.value]
  {
    if j > |s| then None
    else
      var run := TakeUntil(s[j..], '/');
      if run != [] && |run| < |s[j..]| then
        assert s[j..j + |run|] == run;
        Some(j + |run|)
      else
        None
  }

  /** `Segment` finds nothing only when no `/` after `j` closes a non-empty run from `j`. */
  lemma SegmentNone(s: string, j: nat)
    requires Segment(s, j).None?
    ensures j > |s| || forall e' :: j < e' < |s| && s[e'] == '/' ==> '/' in s[j..e']
  {
    if j <= |s| {
      assert forall e' :: j < e' < |s| && s[e'] == '/' ==> s[j..][..e' - j] == s[j..e'];
    }
  }

  /** The text at `j` is `seg` and then `/`, where `seg` is a non-empty run
      without `/`: one `[^/]+\/` of the patterns. */
  predicate RunAt(s: string, j: nat, seg: string) {
    && seg != [] && '/' !in seg
    && j + |seg| < |s| && s[j..j + |seg|] == seg && s[j + |seg|] == '/'
  }

  /** The text at `i` reads the literal `p` and then such a run `seg`. */
  predicate PieceAt(s: string, i: nat, p: string, seg: string) {
    i + |p| <= |s| && s[i..i + |p|] == p && RunAt(s, i + |p|, seg)
  }

  /** The segment `Segment` finds is such a run. */
  lemma SegmentIsRun(s: string, j: nat, e: nat)
    requires Segment(s, j) == Some(e)
    ensures RunAt(s, j, s[j..e])
  {
  }

  /** The literal `p` matched at `i`, then `[^/]+\/`: the position of that closing `/`. */
  function PieceEnd(s: string, i: nat, p: string): (e: Option<nat>)
    ensures e.Some? ==> i + |p| < e.value < |s|
  {
    if i + |p| <= |s| && s[i..i + |p|] == p then Segment(s, i + |p|) else None
  }

  /** Where `PieceEnd` finds an end, the text at `i` is a piece closing there. */
  lemma PieceEndSound(s: string, i: nat, p: string)
    requires PieceEnd(s, i, p).Some?
    ensures PieceAt(s, i, p, s[i + |p|..PieceEnd(s, i, p).value])
  {
    SegmentIsRun(s, i + |p|, PieceEnd(s, i, p).value);
  }

  /** A piece at `i` is found by `PieceEnd`, closing right after its run. */
  lemma PieceEndComplete(s: string, i: nat, p: string, seg: string)
    requires PieceAt(s, i, p, seg)
    ensures PieceEnd(s, i, p) == Some(i + |p| + |seg|)
  {
    SegmentAt(s, i + |p|, i + |p| + |seg|);
  }

  const LetterPrefix := "/letter_avatar/"
  const UserPrefix := "/user_avatar/"

  /** `\/letter_avatar\/([^/]+)\/` matched at position `i`: the captured name. */
  function LetterAvatarAt(s: string, i: nat): (name: Option<string>)
    ensures name.Some? ==> PieceAt(s, i, LetterPrefix, name.value)
  {
    match PieceEnd(s, i, LetterPrefix)
    case Some(e) =>
      PieceEndSound(s, i, LetterPrefix);
      Some(s[i + |LetterPrefix|..e])
    case None => None
  }

  /** The letter-avatar pattern matches at `i` whenever the text there has its shape. */
  lemma LetterAvatarAtComplete(s: string, i: nat, n: string)
    requires PieceAt(s, i, LetterPrefix, n)
    ensures LetterAvatarAt(s, i) == Some(n)
  {
    PieceEndComplete(s, i, LetterPrefix, n);
  }

  /** The text at `i` reads the literal `p`, a run `a`, `/`, a run `n`, `/`. */
  predicate TwoPiecesAt(s: string, i: nat, p: string, a: string, n: string) {
    PieceAt(s, i, p, a) && RunAt(s, i + |p| + |a| + 1, n)
  }

  /** `p[^/]+\/([^/]+)\/` matched at position `i`: the second run. */
  function SecondRun(s: string, i: nat, p: string): (r: Option<string>)
    ensures r.Some? ==> r.value != [] && '/' !in r.value
  {
    match PieceEnd(s, i, p)
    case Some(e1) =>
      (match Segment(s, e1 + 1)
       case Some(e2) => SegmentIsRun(s, e1 + 1, e2); Some(s[e1 + 1..e2])
       case None => None)
    case None => None
  }

  /** What `SecondRun` captures sits in a text of the two-run shape, whose first run is `a`. */
  lemma SecondRunSound(s: string, i: nat, p: string) returns (a: string)
    requires SecondRun(s, i, p).Some?
    ensures TwoPiecesAt(s, i, p, a, SecondRun(s, i, p).value)
  {
    var e1 := PieceEnd(s, i, p).value;
    var e2 := Segment(s, e1 + 1).value;
    a := s[i + |p|..e1];
    var n := s[e1 + 1..e2];
    assert SecondRun(s, i, p) == Some(n) by {
      assert PieceEnd(s, i, p) == Some(e1) && Segment(s, e1 + 1) == Some(e2);
    }
    assert PieceAt(s, i, p, a) by { PieceEndSound(s, i, p); }
    assert RunAt(s, e1 + 1, n) by { SegmentIsRun(s, e1 + 1, e2); }
    assert i + |p| + |a| + 1 == e1 + 1;
  }

  /** A text of the two-run shape at `i` is matched there, capturing its second run. */
  lemma SecondRunComplete(s: string, i: nat, p: string, a: string, n: string)
    requires TwoPiecesAt(s, i, p, a, n)
    ensures SecondRun(s, i, p) == Some(n)
  {
    var e1 := i + |p| + |a|;
    PieceEndComplete(s, i, p, a);
    SegmentAt(s, e1 + 1, e1 + 1 + |n|);
    assert s[e1 + 1..e1 + 1 + |n|] == n;
  }

  /** `\/user_avatar\/[^/]+\/([^/]+)\/` matched at position `i`: the second segment. */
  function UserAvatarAt(s: string, i: nat): (name: Option<string>)
    ensures name.Some? ==> name.value != [] && '/' !in name.value
  {
    SecondRun(s, i, UserPrefix)
  }

  /** A match at `i` captures `n` only where the text there reads `/user_avatar/`,
      a run, `/`, then `n` and `/`. */
  lemma UserAvatarAtSound(s: string, i: nat)
    requires UserAvatarAt(s, i).Some?
    ensures exists a :: TwoPiecesAt(s, i, UserPrefix, a, UserAvatarAt(s, i).value)
  {
    var a := SecondRunSound(s, i, UserPrefix);
    assert TwoPiecesAt(s, i, UserPrefix, a, UserAvatarAt(s, i).value);
  }

  /** The user-avatar pattern matches at `i` whenever the text there has its shape. */
  lemma UserAvatarAtComplete(s: string, i: nat, a: string, n: string)
    requires TwoPiecesAt(s, i, UserPrefix, a, n)
    ensures UserAvatarAt(s, i) == Some(n)
  {
    SecondRunComplete(s, i, UserPrefix, a, n);
  }

  /** `src.match(/\/letter_avatar\/([^/]+)\//)[1]`: the leftmost match. */
  function LetterAvatarName(s: string, from: nat): (name: Option<string>)
    ensures name.Some? ==> name.value != [] && '/' !in name.value
    ensures name.Some? ==> exists i :: from <= i <= |s| && LetterAvatarAt(s, i) == name
                                      && forall i' :: from <= i' < i ==> LetterAvatarAt(s, i').None?
    ensures name.None? ==> forall i :: from <= i <= |s| ==> LetterAvatarAt(s, i).None?
    decreases |s| + 1 - from
  {
    if from > |s| then None
    else if LetterAvatarAt(s, from).Some? then LetterAvatarAt(s, from)
    else LetterAvatarName(s, from + 1)
  }

  /** `src.match(/\/user_avatar\/[^/]+\/([^/]+)\//)[1]`: the leftmost match. */
  function UserAvatarName(s: string, from: nat): (name: Option<string>)
    ensures name.Some? ==> name.value != [] && '/' !in name.value
    ensures name.Some? ==> exists i :: from <= i <= |s| && UserAvatarAt(s, i) == name
                                      && forall i' :: from <= i' < i ==> UserAvatarAt(s, i').None?
    ensures name.None? ==> forall i :: from <= i <= |s| ==> UserAvatarAt(s, i).None?
    decreases |s| + 1 - from
  {
    if from > |s| then None
    else if UserAvatarAt(s, from).Some? then UserAvatarAt(s, from)
    else UserAvatarName(s, from + 1)
  }

  /** `s.split('/u/')[1].split('/')[0]` when `s.includes('/u/')`: the text after
      the first `/u/` up to the next `/` (the next `/u/`, if any, starts with a
      `/`, so it never lies inside this text). */
  function ProfileName(s: string): (name: Option<string>)
    ensures name.None? <==> Find(s, "/u/").None?
    ensures name.Some? ==>
              var k := Find(s, "/u/").value + 3;
              && '/' !in name.value
              && k + |name.value| <= |s| && s[k..k + |name.value|] == name.value
              && (k + |name.value| == |s| || s[k + |name.value|] == '/')
  {
    match Find(s, "/u/")
    case None => None
    case Some(k) => Some(TakeUntil(s[k + 3..], '/'))
  }

  // ---------------------------------------------------------------- the chain

  /** A value JavaScript treats as true: present and not empty. */
  predicate Truthy(o: Option<string>) {
    o.Some? && o.value != []
  }

  /** The `img` of the user-menu toggle, when both exist. */
  function MenuImage(p: Page): Option<AvatarImg> {
    if p.userMenu.Some? then p.userMenu.value else None
  }

  /** The letter-avatar name in a non-empty `src`. */
  function LetterCandidate(img: Option<AvatarImg>): Option<string> {
    if img.Some? && img.value.src != [] then LetterAvatarName(img.value.src, 0) else None
  }

  /** The user-avatar name in a non-empty `src`. */
  function UserCandidate(img: Option<AvatarImg>): Option<string> {
    if img.Some? && img.value.src != [] then UserAvatarName(img.value.src, 0) else None
  }

  /** The profile name in the current-user link's `href`. */
  function LinkCandidate(p: Page): Option<string> {
    if p.userLinkHref.Some? then ProfileName(p.userLinkHref.value) else None
  }

  /** `getCurrentUsername()`: the sources in their fixed order, the first non-empty one wins. */
  function CurrentUsername(p: Page): (name: Option<string>)
    ensures name.Some? ==> name.value != []
  {
    var img := MenuImage(p);
    if img.Some? && img.value.alt != [] then Some(img.value.alt)
    else if Truthy(LetterCandidate(img)) then LetterCandidate(img)
    else if Truthy(UserCandidate(img)) then UserCandidate(img)
    else if Truthy(p.avatarTitle) then p.avatarTitle
    else if Truthy(LinkCandidate(p)) then LinkCandidate(p)
    else if Truthy(ProfileName(p.pathname)) then ProfileName(p.pathname)
    else if Truthy(p.storedUsername) then p.storedUsername
    else None
  }

  /** The candidates in the resolver's priority order, each None when its source gives nothing. */
  function Candidates(p: Page): seq<Option<string>> {
    var img := MenuImage(p);
    [ if img.Some? then Some(img.value.alt) else None,
      LetterCandidate(img),
      UserCandidate(img),
      p.avatarTitle,
      LinkCandidate(p),
      ProfileName(p.pathname),
      p.storedUsername ]
  }

  /** The first truthy candidate. */
  function FirstTruthy(cs: seq<Option<string>>): (r: Option<string>)
    ensures r.Some? ==> r.value != [] && r in cs
    ensures r.None? ==> forall k :: 0 <= k < |cs| ==> !Truthy(cs[k])
  {
    if cs == [] then None else if Truthy(cs[0]) then cs[0] else FirstTruthy(cs[1..])
  }

  /** The first truthy candidate of `[c] + rest`: `c` if truthy, else the first of `rest`. */
  lemma FirstTruthyCons(c: Option<string>, rest: seq<Option<string>>)
    ensures FirstTruthy([c] + rest) == if Truthy(c) then c else FirstTruthy(rest)
  {
    assert ([c] + rest)[1..] == rest;
  }

  /** The resolver is exactly "the first non-empty candidate in priority order". */
  lemma CurrentUsernameIsFirstTruthy(p: Page)
    ensures CurrentUsername(p) == FirstTruthy(Candidates(p))
  {
    var img := MenuImage(p);
    var c0 := if img.Some? then Some(img.value.alt) else None;
    var c1, c2, c3 := LetterCandidate(img), UserCandidate(img), p.avatarTitle;
    var c4, c5, c6 := LinkCandidate(p), ProfileName(p.pathname), p.storedUsername;
    assert Candidates(p) == [c0, c1, c2, c3, c4, c5, c6];
    FirstOfSeven(c0, c1, c2, c3, c4, c5, c6);
  }

  /** The first truthy of seven candidates, written out as the resolver's chain of tests. */
  lemma FirstOfSeven(c0: Option<string>, c1: Option<string>, c2: Option<string>, c3: Option<string>,
                     c4: Option<string>, c5: Option<string>, c6: Option<string>)
    ensures FirstTruthy([c0, c1, c2, c3, c4, c5, c6])
            == if Truthy(c0) then c0 else if Truthy(c1) then c1 else if Truthy(c2) then c2
               else if Truthy(c3) then c3 else if Truthy(c4) then c4 else if Truthy(c5) then c5
               else if Truthy(c6) then c6 else None
  {
    var t6 := [c6];
    var t5 := [c5] + t6;
    var t4 := [c4] + t5;
    var t3 := [c3] + t4;
    var t2 := [c2] + t3;
    var t1 := [c1] + t2;
    var t0 := [c0] + t1;
    assert [c0, c1, c2, c3, c4, c5, c6] == t0;
    FirstTruthyCons(c6, []);
    assert [c6] + [] == t6;
    FirstTruthyCons(c5, t6);
    FirstTruthyCons(c4, t5);
    FirstTruthyCons(c3, t4);
    FirstTruthyCons(c2, t3);
    FirstTruthyCons(c1, t2);
    FirstTruthyCons(c0, t1);
  }

  /** A higher-priority source hides every lower one: the avatar's `alt` wins whatever else the page holds. */
  lemma AltWins(p: Page, q: Page)
    requires p.userMenu.Some? && p.userMenu.value.Some? && p.userMenu.value.value.alt != []
    requires q.userMenu == p.userMenu
    ensures CurrentUsername(p) == CurrentUsername(q) == Some(p.userMenu.value.value.alt)
  {
  }

  /** With none of the sources present the resolver gives null. */
  lemma NoSourceNoName(p: Page)
    requires p.userMenu.None? && p.avatarTitle.None? && p.userLinkHref.None?
    requires Find(p.pathname, "/u/").None? && p.storedUsername.None?
    ensures CurrentUsername(p).None?
  {
  }

  /** A run of non-`/` characters from `j` closed by a `/` at `e` is the segment found at `j`. */
  lemma SegmentAt(s: string, j: nat, e: nat)
    requires j < e < |s| && s[e] == '/' && '/' !in s[j..e]
    ensures Segment(s, j) == Some(e)
  {
    var rest := s[j..];
    assert rest[..e - j] == s[j..e] && rest[e - j] == '/';
    TakeUntilPrefix(rest, '/', e - j);
  }

  /** The letter-avatar pattern matches at the very start of the example URL. */
  lemma AliceAtStart(s: string)
    requires s == "/letter_avatar/alice/48/5_abc.png"
    ensures LetterAvatarAt(s, 0) == Some("alice")
  {
    assert s[0..15] == "/letter_avatar/";
    assert s[15..20] == [s[15], s[16], s[17], s[18], s[19]] == "alice";
    assert s[20] == '/';
    SegmentAt(s, 15, 20);
  }

  /** A letter-avatar URL names the user between `/letter_avatar/` and the next `/`. */
  lemma LetterAvatarExample()
    ensures LetterAvatarName("/letter_avatar/alice/48/5_abc.png", 0) == Some("alice")
  {
    var s := "/letter_avatar/alice/48/5_abc.png";
    AliceAtStart(s);
  }

  /** `isLoggedIn()`: logged out only when no user menu exists and a login control is shown. */
  function IsLoggedIn(p: Page): (loggedIn: bool)
    ensures p.userMenu.Some? ==> loggedIn
    ensures !loggedIn <==> p.userMenu.None? && p.loginButtonVisible
  {
    if p.userMenu.Some? then true
    else if p.loginButtonVisible then false
    else true
  }
}
