/**
 * Access control: the allow-list read from the comma-separated
 * ALLOWED_USERNAMES setting and the `is_allowed_user` test.
 */
module AccessControl {
  import opened Wrappers
  import opened Strings
  import opened Telegram

  /** Each piece stripped, `[x.strip() for x in pieces]`. */
  function StripAll(pieces: seq<string>): (r: seq<string>)
    ensures |r| == |pieces|
    ensures forall i :: 0 <= i < |r| ==> r[i] == Strip(pieces[i])
  {
    seq(|pieces|, i requires 0 <= i < |pieces| => Strip(pieces[i]))
  }

  /** The non-empty entries of `xs`, in order (the `if x.strip()` filter). */
  function DropEmpty(xs: seq<string>): (r: seq<string>)
    ensures forall k :: 0 <= k < |r| ==> r[k] != "" && r[k] in xs
    ensures forall i :: 0 <= i < |xs| && xs[i] != "" ==> xs[i] in r
    ensures |r| <= |xs|
  {
    if xs == [] then []
    else
      var rest := DropEmpty(xs[1..]);
      assert forall i :: 1 <= i < |xs| ==> xs[1..][i - 1] == xs[i];
      if xs[0] != "" then [xs[0]] + rest else rest
  }

  /** The comma-separated pieces of the setting, each stripped. */
  function StrippedPieces(raw: string): seq<string>
  {
    StripAll(Split(raw, ','))
  }

  /**
   * The allow-list built from the ALLOWED_USERNAMES setting: the
   * comma-separated pieces, stripped, with the empty ones dropped. Its entries
   * are exactly the non-empty stripped pieces.
   */
  function ParseAllowList(raw: string): (r: seq<string>)
    ensures forall x :: x in r <==> x != "" && x in StrippedPieces(raw)
  {
    DropEmpty(StrippedPieces(raw))
  }

  /** Every allow-list entry is non-empty, stripped and free of commas. */
  lemma {:induction false} AllowListEntriesWellFormed(raw: string, k: nat)
    ensures k < |ParseAllowList(raw)| ==>
      var x := ParseAllowList(raw)[k]; x != "" && IsStripped(x) && ',' !in x
  {
    if k < |ParseAllowList(raw)| {
      var pieces := Split(raw, ',');
      var stripped := StripAll(pieces);
      var x := ParseAllowList(raw)[k];
      assert x in StrippedPieces(raw);
      var i :| 0 <= i < |stripped| && stripped[i] == x;
      var j := StripRemovesOnlySpace(pieces[i]);
      assert forall c :: c in x ==> c in pieces[i];
    }
  }

  /**
   * `is_allowed_user`: everybody when the allow-list is empty, otherwise only
   * a user whose handle is on the list (an account without a handle never is).
   */
  function IsAllowedUser(username: Username, allowed: seq<string>): (r: bool)
    ensures allowed == [] ==> r
    ensures username.None? ==> (r <==> allowed == [])
    ensures r && allowed != [] ==> username.Some? && exists i :: 0 <= i < |allowed| && allowed[i] == username.value
  {
    |allowed| == 0 || (username.Some? && username.value in allowed)
  }

  /**
   * With the list parsed from `raw`, a user is allowed exactly when every
   * comma-separated piece of `raw` strips to nothing, or the user has a
   * non-empty handle that some piece strips to.
   */
  lemma {:induction false} AllowedIffOpenOrListed(raw: string, username: Username)
    ensures IsAllowedUser(username, ParseAllowList(raw)) <==>
      (forall p :: p in StrippedPieces(raw) ==> p == "")
      || (username.Some? && username.value != "" && username.value in StrippedPieces(raw))
  {
    AllowedByDropEmpty(StrippedPieces(raw), username);
  }

  /** `AllowedIffOpenOrListed` for the list of stripped pieces `xs`. */
  lemma {:induction false} AllowedByDropEmpty(xs: seq<string>, username: Username)
    ensures IsAllowedUser(username, DropEmpty(xs)) <==>
      (forall p :: p in xs ==> p == "") || (username.Some? && username.value != "" && username.value in xs)
  {
    DropEmptyIsOpenIffBlank(xs);
    if username.Some? && username.value != "" && username.value in xs {
      var i :| 0 <= i < |xs| && xs[i] == username.value;
    }
  }

  /** Dropping the empty entries leaves nothing exactly when all entries are empty. */
  lemma {:induction false} DropEmptyIsOpenIffBlank(xs: seq<string>)
    ensures |DropEmpty(xs)| == 0 <==> forall p :: p in xs ==> p == ""
  {
    var r := DropEmpty(xs);
    if |r| > 0 {
      assert r[0] in xs && r[0] != "";
    } else {
      forall p | p in xs ensures p == "" {
        var i :| 0 <= i < |xs| && xs[i] == p;
      }
    }
  }

  /** Every character of a piece of `Split(s, sep)` is a character of `s`. */
  lemma {:induction false} JoinHasPieceChars(pieces: seq<string>, sep: char, i: nat, k: nat)
    requires |pieces| >= 1 && i < |pieces| && k < |pieces[i]|
    ensures pieces[i][k] in Join(pieces, sep)
    decreases |pieces|
  {
    if i == 0 {
      assert Join(pieces, sep)[k] == pieces[0][k];
    } else {
      JoinHasPieceChars(pieces[1..], sep, i - 1, k);
      var rest := Join(pieces[1..], sep);
      var j :| 0 <= j < |rest| && rest[j] == pieces[i][k];
      assert Join(pieces, sep)[|pieces[0]| + 1 + j] == rest[j];
    }
  }

  /**
   * A setting made only of whitespace and commas (the empty string included)
   * yields the empty allow-list, which lets every user in.
   */
  lemma {:induction false} BlankSettingAllowsEveryone(raw: string, username: Username)
    requires forall k :: 0 <= k < |raw| ==> raw[k] == ',' || IsSpace(raw[k])
    ensures ParseAllowList(raw) == []
    ensures IsAllowedUser(username, ParseAllowList(raw))
  {
    var pieces := Split(raw, ',');
    var stripped := StripAll(pieces);
    forall i | 0 <= i < |pieces| ensures stripped[i] == "" {
      forall k | 0 <= k < |pieces[i]| ensures IsSpace(pieces[i][k]) {
        JoinHasPieceChars(pieces, ',', i, k);
      }
      StripEmptyIffAllSpace(pieces[i]);
    }
    DropEmptyIsOpenIffBlank(stripped);
  }

  /** A non-empty allow-list rejects a user without a handle and the empty handle. */
  lemma {:induction false} NamelessUsersRejected(raw: string)
    ensures |ParseAllowList(raw)| > 0 ==> !IsAllowedUser(None, ParseAllowList(raw))
    ensures |ParseAllowList(raw)| > 0 ==> !IsAllowedUser(Some(""), ParseAllowList(raw))
  {
  }

  /** A handle with whitespace at either end never matches a non-empty allow-list. */
  lemma {:induction false} PaddedHandleRejected(raw: string, name: string)
    requires !IsStripped(name)
    ensures |ParseAllowList(raw)| > 0 ==> !IsAllowedUser(Some(name), ParseAllowList(raw))
  {
  }
}
