/**
 * Registration: username validation and normalisation, duplicate rejection,
 * and the initial record and leaderboard entries every invariant starts from.
 */
module RegisterRoute {
  import opened Options
  import opened Adaptive
  import opened Store

  /** The code points JavaScript's `trim` removes: WhiteSpace (tab, vertical
      tab, form feed, space, no-break space, byte order mark and the Unicode
      space separators) and LineTerminator (LF, CR, U+2028, U+2029). */
  predicate IsWhitespace(c: char)
  {
    var n := c as int;
    || n == 0x09 || n == 0x0A || n == 0x0B || n == 0x0C || n == 0x0D || n == 0x20
    || n == 0xA0 || n == 0x1680 || (0x2000 <= n <= 0x200A) || n == 0x2028 || n == 0x2029
    || n == 0x202F || n == 0x205F || n == 0x3000 || n == 0xFEFF
  }

  /** The index of the first non-whitespace character at or after `i`
      (`|s|` when there is none). */
  function SkipLeading(s: string, i: nat): (j: nat)
    requires i <= |s|
    ensures i <= j <= |s|
    ensures forall m :: i <= m < j ==> IsWhitespace(s[m])
    ensures j < |s| ==> !IsWhitespace(s[j])
    decreases |s| - i
  {
    if i < |s| && IsWhitespace(s[i]) then SkipLeading(s, i + 1) else i
  }

  /** The end of `s[lo..j]` once its trailing whitespace is dropped. */
  function SkipTrailing(s: string, lo: nat, j: nat): (e: nat)
    requires lo <= j <= |s|
    ensures lo <= e <= j
    ensures forall m :: e <= m < j ==> IsWhitespace(s[m])
    ensures lo < e ==> !IsWhitespace(s[e - 1])
    decreases j
  {
    if lo < j && IsWhitespace(s[j - 1]) then SkipTrailing(s, lo, j - 1) else j
  }

  /** `trim`: the middle of `s` between its leading and trailing whitespace.
      Only whitespace is dropped, on either side, and what is left has no
      whitespace at either end. */
  function Trim(s: string): (t: string)
    ensures var k := SkipLeading(s, 0);
      && k + |t| <= |s|
      && t == s[k..k + |t|]
      && (forall i :: 0 <= i < k ==> IsWhitespace(s[i]))
      && (forall i :: k + |t| <= i < |s| ==> IsWhitespace(s[i]))
    ensures |t| > 0 ==> !IsWhitespace(t[0]) && !IsWhitespace(t[|t| - 1])
  {
    var k := SkipLeading(s, 0);
    s[k..SkipTrailing(s, k, |s|)]
  }

  /** Trim's characterisation pins it down: a slice `s[k..e]` with only
      whitespace outside it and none at its ends (or an empty slice of an
      all-whitespace string) is the trim of `s`. */
  lemma TrimIsUnique(s: string, k: nat, e: nat)
    requires k <= e <= |s|
    requires forall i :: 0 <= i < k ==> IsWhitespace(s[i])
    requires forall i :: e <= i < |s| ==> IsWhitespace(s[i])
    requires k < e ==> !IsWhitespace(s[k]) && !IsWhitespace(s[e - 1])
    ensures Trim(s) == s[k..e]
  {
    if k < e {
      assert SkipLeading(s, 0) == k;
      assert SkipTrailing(s, k, |s|) == e;
    } else {
      assert SkipLeading(s, 0) == |s|;
    }
  }

  predicate IsUpper(c: char)
  {
    'A' <= c <= 'Z'
  }

  function LowerChar(c: char): (l: char)
    ensures !IsUpper(l)
    ensures IsUpper(c) ==> l as int == c as int + 32
    ensures !IsUpper(c) ==> l == c
  {
    if IsUpper(c) then (c as int + 32) as char else c
  }

  /** Lower-cases every letter A-Z; every other character is kept. */
  function ToLower(s: string): (t: string)
    ensures |t| == |s|
    ensures forall i :: 0 <= i < |s| ==> t[i] == LowerChar(s[i])
  {
    seq(|s|, i requires 0 <= i < |s| => LowerChar(s[i]))
  }

  /** The stored form of a username: as long as the trimmed input, with no
      letter A-Z left and no whitespace at either end. */
  function NormalizeUsername(s: string): (n: string)
    ensures |n| == |Trim(s)|
    ensures forall i :: 0 <= i < |n| ==> !IsUpper(n[i])
    ensures |n| > 0 ==> !IsWhitespace(n[0]) && !IsWhitespace(n[|n| - 1])
  {
    var t := Trim(s);
    var n := ToLower(t);
    if |n| > 0 then
      assert n[0] == LowerChar(t[0]) && n[|n| - 1] == LowerChar(t[|t| - 1]);
      n
    else n
  }

  /** Normalising twice gives what normalising once gives, so every spelling
      of a name that differs only in case of A-Z and outer whitespace lands
      on one stored name. */
  lemma NormalizeIdempotent(s: string)
    ensures NormalizeUsername(NormalizeUsername(s)) == NormalizeUsername(s)
  {
    var n := NormalizeUsername(s);
    var t := Trim(s);
    if |n| > 0 {
      assert n[0] == LowerChar(t[0]) && n[|n| - 1] == LowerChar(t[|t| - 1]);
    }
    TrimIsUnique(n, 0, |n|);
    assert ToLower(n) == n;
  }

  /** The length JavaScript reports: UTF-16 code units, two for a code point
      outside the Basic Multilingual Plane. */
  function Utf16Length(s: string): (n: nat)
    ensures |s| <= n <= 2 * |s|
  {
    if |s| == 0 then 0
    else Utf16Length(s[..|s| - 1]) + (if s[|s| - 1] as int >= 0x10000 then 2 else 1)
  }

  datatype RegisterResponse =
    | Registered(userId: UserId, username: string)
    | RegisterRejected(status: Status)

  datatype RegisterOutcome = RegisterOutcome(response: RegisterResponse, store: Store)

  /** The record a new user starts from. */
  function InitialUserState(): (u: UserState)
    ensures ValidUser(u)
    ensures u.adaptive.lastAnswerAt.None? && u.adaptive.recentAnswers == []
  {
    UserState(AdaptiveState(MinDifficulty, 0, 0, 0, [], None), 0, 0, 0, 1, None, None)
  }

  /** The username is missing, not a string, or shorter than two UTF-16
      units once trimmed. */
  predicate InvalidUsername(username: Option<string>)
  {
    username.None? || username.value == "" || Utf16Length(Trim(username.value)) < 2
  }

  /** The generated id already belongs to some record, so creating fails. */
  predicate IdInUse(st: Store, id: UserId)
  {
    id in st.states || id in st.users.Values || id in st.scoreBoard || id in st.streakBoard
  }

  /** `username` is None when the body field is absent or not a string;
      `newId` is the id the database generates for the new user. */
  function Register(st: Store, username: Option<string>, newId: UserId): (o: RegisterOutcome)
    ensures o.response == RegisterRejected(BadRequest) <==> InvalidUsername(username)
    ensures o.response == RegisterRejected(Conflict) <==>
      !InvalidUsername(username) && NormalizeUsername(username.value) in st.users
    ensures o.response.Registered? <==>
      !InvalidUsername(username) && NormalizeUsername(username.value) !in st.users && !IdInUse(st, newId)
    ensures !o.response.Registered? ==> o.store == st
    ensures o.response.Registered? ==>
      && o.response.username == NormalizeUsername(username.value)
      && o.response.userId == newId
      && o.response.username !in st.users && !IdInUse(st, newId)
      && o.store == st.(users := st.users[o.response.username := newId],
                        states := st.states[newId := InitialUserState()],
                        scoreBoard := st.scoreBoard[newId := 0],
                        streakBoard := st.streakBoard[newId := 0])
  {
    if InvalidUsername(username) then RegisterOutcome(RegisterRejected(BadRequest), st)
    else
      var clean := NormalizeUsername(username.value);
      if clean in st.users then RegisterOutcome(RegisterRejected(Conflict), st)
      else if IdInUse(st, newId) then RegisterOutcome(RegisterRejected(Internal), st)
      else
        RegisterOutcome(
          Registered(newId, clean),
          st.(users := st.users[clean := newId],
              states := st.states[newId := InitialUserState()],
              scoreBoard := st.scoreBoard[newId := 0],
              streakBoard := st.streakBoard[newId := 0]))
  }

  /** Once a name is registered, every spelling of it that normalises the
      same way is refused as taken, and nothing is created. */
  lemma RegisteredNameIsTaken(st: Store, name: Option<string>, newId: UserId,
                              again: Option<string>, otherId: UserId)
    requires Register(st, name, newId).response.Registered?
    requires again.Some? && name.Some?
    requires NormalizeUsername(again.value) == NormalizeUsername(name.value)
    ensures var st1 := Register(st, name, newId).store;
      Register(st1, again, otherId) == RegisterOutcome(RegisterRejected(Conflict), st1)
  {
    var clean := NormalizeUsername(name.value);
    var t := Trim(again.value);
    var n := NormalizeUsername(again.value);
    assert |n| == |t|;
    Utf16LengthCountsUnits(t);
    Utf16LengthCountsUnits(Trim(name.value));
    assert Utf16Length(Trim(name.value)) >= 2;
    assert |Trim(name.value)| == |clean| == |t|;
    assert |t| >= 1;
    if |t| == 1 {
      assert Trim(name.value)[0] as int >= 0x10000;
      assert LowerChar(t[0]) == LowerChar(Trim(name.value)[0]);
      assert t[0] as int >= 0x10000;
    }
  }

  /** A one-unit difference: the UTF-16 length of a single character. */
  lemma Utf16LengthCountsUnits(s: string)
    ensures |s| == 1 ==> Utf16Length(s) == (if s[0] as int >= 0x10000 then 2 else 1)
  {
    if |s| == 1 {
      assert s[..0] == [];
    }
  }

  /** Registration keeps the store invariant, and a new user's first answer
      never sees an inactivity decay. */
  lemma RegisterPreservesValid(st: Store, username: Option<string>, newId: UserId)
    requires ValidStore(st)
    ensures ValidStore(Register(st, username, newId).store)
    ensures Register(st, username, newId).response.Registered? ==>
      forall c: bool, now: int :: !ComputeNextState(InitialUserState().adaptive, c, now).inactivityDecay
  {
    var o := Register(st, username, newId);
    if o.response.Registered? {
      var st' := o.store;
      assert NamesResolve(st') by {
        forall name | name in st'.users
          ensures st'.users[name] in st'.states
        {
          if name != o.response.username {
            assert st'.users[name] == st.users[name];
          }
        }
      }
    }
  }
}
