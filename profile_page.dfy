/** The profile page: the loaded user, the edit form for name and bio, the
    save request and its client-side checks, the win rate and the badge
    colour. */
module ProfilePage {
  import opened JsText
  import ServerAuth

  /** The user object the page shows. */
  datatype ProfileUser = ProfileUser(name: string, bio: Option<string>, badge: string, totalGames: int, wins: int)

  /** The server's answer to the save request. */
  datatype SaveReply = Saved(user: ProfileUser) | Refused(error: Option<string>) | NetworkFailure

  /** The body of the save request. */
  datatype ProfileUpdate = ProfileUpdate(name: string, bio: string, token: Option<string>)

  /** floor(a / b) for b != 0, whatever the signs. */
  function FloorDiv(a: int, b: int): (q: int)
    requires b != 0
    ensures b > 0 ==> q * b <= a < q * b + b
    ensures b < 0 ==> q * b >= a > q * b + b
  {
    if b > 0 then a / b else (-a) / (-b)
  }

  /** getWinRate(): 0 without a user or with no games, otherwise
      Math.round(wins / total_games * 100), the nearest integer with halves
      rounded up. */
  function WinRate(user: Option<ProfileUser>): (r: int)
    ensures user.None? || user.value.totalGames == 0 ==> r == 0
    ensures user.Some? && user.value.totalGames > 0 ==>
      (2 * r - 1) * user.value.totalGames <= 200 * user.value.wins < (2 * r + 1) * user.value.totalGames
  {
    if user.None? || user.value.totalGames == 0 then 0
    else FloorDiv(200 * user.value.wins + user.value.totalGames, 2 * user.value.totalGames)
  }

  /** With 0 <= wins <= total_games the rate is a percentage, 100 exactly
      when every game was won and 0 when none was. */
  lemma WinRateIsPercentage(user: ProfileUser)
    requires 0 <= user.wins <= user.totalGames
    ensures 0 <= WinRate(Some(user)) <= 100
    ensures user.totalGames > 0 && user.wins == user.totalGames ==> WinRate(Some(user)) == 100
    ensures user.wins == 0 ==> WinRate(Some(user)) == 0
  {
    var r := WinRate(Some(user));
    var t, w := user.totalGames, user.wins;
    if t > 0 {
      if r < 0 {
        MulLe(2 * r + 1, -1, t);
      }
      if r > 100 {
        MulLe(201, 2 * r - 1, t);
      }
      if w == t && r < 100 {
        MulLe(2 * r + 1, 199, t);
      }
      if w == 0 && r >= 1 {
        MulLe(1, 2 * r - 1, t);
      }
    }
  }

  lemma MulLe(a: int, b: int, t: int)
    requires a <= b && t > 0
    ensures a * t <= b * t
  {
    assert b * t - a * t == (b - a) * t;
  }

  const DefaultBadgeColor := "bg-gray-500"

  /** getBadgeColor(badge): the class of one of the seven known badges, the
      grey class for any other. */
  function BadgeColor(badge: string): (c: string)
    ensures badge == "bronze" ==> c == "bg-orange-600"
    ensures badge == "silver" ==> c == "bg-gray-400"
    ensures badge == "gold" ==> c == "bg-yellow-500"
    ensures badge == "platinum" ==> c == "bg-blue-500"
    ensures badge == "diamond" ==> c == "bg-purple-500"
    ensures badge == "master" ==> c == "bg-red-500"
    ensures badge !in {"bronze", "silver", "gold", "platinum", "diamond", "master"} ==> c == DefaultBadgeColor
  {
    var colors := map[
      "beginner" := "bg-gray-500", "bronze" := "bg-orange-600", "silver" := "bg-gray-400",
      "gold" := "bg-yellow-500", "platinum" := "bg-blue-500", "diamond" := "bg-purple-500",
      "master" := "bg-red-500"];
    if badge in colors && colors[badge] != "" then colors[badge] else DefaultBadgeColor
  }

  /** Distinct known badges other than the beginner one get distinct colours. */
  lemma RankedBadgesHaveOwnColours(a: string, b: string)
    requires a in {"bronze", "silver", "gold", "platinum", "diamond", "master"}
    requires b in {"bronze", "silver", "gold", "platinum", "diamond", "master"}
    requires a != b
    ensures BadgeColor(a) != BadgeColor(b) && BadgeColor(a) != DefaultBadgeColor
  {
  }

  /** The first problem handleSave finds with the edit form, if any. */
  function SaveProblem(name: string, bio: string): (m: Option<string>)
    ensures Trim(name) == "" ==> m == Some("Name is required")
    ensures Trim(name) != "" && (Utf16Length(name) < 2 || Utf16Length(name) > 100) ==>
      m == Some("Name must be between 2 and 100 characters")
    ensures Trim(name) != "" && 2 <= Utf16Length(name) <= 100 && Utf16Length(bio) > 500 ==>
      m == Some("Bio must be less than 500 characters")
    ensures m.None? <==> Trim(name) != "" && 2 <= Utf16Length(name) <= 100 && Utf16Length(bio) <= 500
  {
    if Trim(name) == "" then Some("Name is required")
    else if Utf16Length(name) < 2 || Utf16Length(name) > 100 then Some("Name must be between 2 and 100 characters")
    else if Utf16Length(bio) > 500 then Some("Bio must be less than 500 characters")
    else None
  }

  /** A save the page lets through is accepted by the server's profile
      checks whenever the trimmed name still has length two. */
  lemma AcceptedSaveAcceptedByServer(a: ServerAuth.Account, name: string, bio: string)
    requires SaveProblem(name, bio).None?
    requires Utf16Length(Trim(name)) >= 2
    ensures ServerAuth.UpdateProfile(a, Some(Trim(name)), Some(Trim(bio))).Ok?
  {
    TrimNoLonger(name);
    TrimNoLonger(bio);
  }

  /** The page checks the untrimmed name, so a single character padded
      with a space on each side, such as " a ", passes the page and is
      sent as that one character, which the server rejects. */
  lemma PaddedShortNamePassesPageOnly(a: ServerAuth.Account, c: char)
    requires !IsSpace(c) && c as int <= 0xFFFF
    ensures SaveProblem([' ', c, ' '], "").None?
    ensures ServerAuth.UpdateProfile(a, Some(Trim([' ', c, ' '])), Some(Trim(""))) == Err(ServerAuth.BadProfileName)
  {
    var padded, bare, empty := [' ', c, ' '], [c], "";
    assert Trim(padded) == bare && bare != [] by { TrimPadded(c); }
    assert Utf16Length(padded) == 3 && Utf16Length(bare) == 1 by { PaddedLength(c); }
    assert Trim(empty) == empty && Utf16Length(empty) == 0;
    assert ServerAuth.UpdateProfile(a, Some(bare), Some(empty)) == Err(ServerAuth.BadProfileName);
  }

  lemma PaddedLength(c: char)
    requires c as int <= 0xFFFF
    ensures Utf16Length([' ', c, ' ']) == 3 && Utf16Length([c]) == 1
  {
    var padded, right, single, bare := [' ', c, ' '], [c, ' '], [' '], [c];
    assert padded[0] == ' ' && padded[1..] == right;
    assert right[0] == c && right[1..] == single;
    assert single[0] == ' ' && single[1..] == [];
    assert bare[0] == c && bare[1..] == [];
    assert Utf16Length(single) == 1;
    assert Utf16Length(right) == 2;
  }

  lemma TrimPadded(c: char)
    requires !IsSpace(c)
    ensures Trim([' ', c, ' ']) == [c] && Trim([c]) == [c]
  {
    var padded, right, bare := [' ', c, ' '], [c, ' '], [c];
    assert padded[0] == ' ' && padded[1..] == right && right[0] == c;
    assert IsSpace(' ');
    assert TrimStart(right) == right && TrimStart(bare) == bare;
    assert TrimStart(padded) == right;
    assert right[|right| - 1] == ' ' && right[..|right| - 1] == bare && bare[0] == c;
    assert TrimEnd(bare) == bare;
    assert TrimEnd(right) == bare;
  }

  class ProfileView {
    var user: Option<ProfileUser>
    var editMode: bool
    var saving: bool
    var editName: string
    var editBio: string
    var messageType: string
    var messageText: string
    /** The "chess_user" and "chess_token" slots of localStorage. */
    var storedUser: Option<ProfileUser>
    var token: Option<string>
    /** Every save request sent. */
    var sent: seq<ProfileUpdate>

    constructor(token0: Option<string>, stored0: Option<ProfileUser>)
      ensures user.None? && !editMode && !saving && editName == "" && editBio == ""
      ensures messageType == "" && messageText == "" && storedUser == stored0 && token == token0 && sent == []
    {
      user := None;
      editMode := false;
      saving := false;
      editName := "";
      editBio := "";
      messageType := "";
      messageText := "";
      storedUser := stored0;
      token := token0;
      sent := [];
    }

    /** handleEdit(): enters edit mode with the user's name and bio (or ""). */
    method HandleEdit()
      requires user.Some?
      modifies this
      ensures user == old(user) && sent == old(sent) && storedUser == old(storedUser)
      ensures editMode && editName == user.value.name && editBio == user.value.bio.GetOr("")
      ensures messageType == old(messageType) && messageText == old(messageText)
      ensures saving == old(saving) && token == old(token)
    {
      editMode := true;
      editName := user.value.name;
      editBio := user.value.bio.GetOr("");
    }

    /** handleCancel(): leaves edit mode and puts the user's name and bio back. */
    method HandleCancel()
      requires user.Some?
      modifies this
      ensures user == old(user) && sent == old(sent) && storedUser == old(storedUser)
      ensures !editMode && editName == user.value.name && editBio == user.value.bio.GetOr("")
      ensures messageType == old(messageType) && messageText == old(messageText)
      ensures saving == old(saving) && token == old(token)
    {
      editMode := false;
      editName := user.value.name;
      editBio := user.value.bio.GetOr("");
    }

    /** handleSave(): the first failing check sets an error message and
        nothing is sent; otherwise the trimmed name and bio are sent, and
        the reply decides the new user, edit mode and message. */
    method HandleSave(reply: SaveReply)
      modifies this
      ensures SaveProblem(old(editName), old(editBio)).Some? ==>
        && messageType == "error" && messageText == SaveProblem(old(editName), old(editBio)).value
        && sent == old(sent) && user == old(user) && editMode == old(editMode) && storedUser == old(storedUser)
        && saving == old(saving)
      ensures SaveProblem(old(editName), old(editBio)).None? ==>
        && sent == old(sent) + [ProfileUpdate(Trim(old(editName)), Trim(old(editBio)), old(token))]
        && !saving
      ensures SaveProblem(old(editName), old(editBio)).None? && reply.Saved? ==>
        && user == Some(reply.user) && storedUser == Some(reply.user) && !editMode
        && messageType == "success" && messageText == "Profile updated successfully!"
      ensures SaveProblem(old(editName), old(editBio)).None? && reply.Refused? ==>
        && user == old(user) && storedUser == old(storedUser) && editMode == old(editMode)
        && messageType == "error" && messageText == (if Truthy(reply.error) then reply.error.value else "Failed to update profile")
      ensures SaveProblem(old(editName), old(editBio)).None? && reply.NetworkFailure? ==>
        && user == old(user) && storedUser == old(storedUser) && editMode == old(editMode)
        && messageType == "error" && messageText == "Network error while updating profile"
      ensures editName == old(editName) && editBio == old(editBio) && token == old(token)
    {
      var name, bio := editName, editBio;
      ghost var problem := SaveProblem(name, bio);
      if Trim(name) == "" {
        messageType, messageText := "error", "Name is required";
        return;
      }
      if Utf16Length(name) < 2 || Utf16Length(name) > 100 {
        messageType, messageText := "error", "Name must be between 2 and 100 characters";
        return;
      }
      if Utf16Length(bio) > 500 {
        messageType, messageText := "error", "Bio must be less than 500 characters";
        return;
      }
      assert problem.None?;
      Submit(ProfileUpdate(Trim(name), Trim(bio), token), reply);
    }

    /** The part of handleSave after the checks: sends the payload and
        applies the reply. */
    method Submit(payload: ProfileUpdate, reply: SaveReply)
      modifies this
      ensures sent == old(sent) + [payload] && !saving
      ensures reply.Saved? ==>
        && user == Some(reply.user) && storedUser == Some(reply.user) && !editMode
        && messageType == "success" && messageText == "Profile updated successfully!"
      ensures reply.Refused? ==>
        && user == old(user) && storedUser == old(storedUser) && editMode == old(editMode)
        && messageType == "error" && messageText == (if Truthy(reply.error) then reply.error.value else "Failed to update profile")
      ensures reply.NetworkFailure? ==>
        && user == old(user) && storedUser == old(storedUser) && editMode == old(editMode)
        && messageType == "error" && messageText == "Network error while updating profile"
      ensures editName == old(editName) && editBio == old(editBio) && token == old(token)
    {
      saving := true;
      sent := sent + [payload];
      match reply {
        case Saved(u) =>
          user := Some(u);
          editMode := false;
          messageType, messageText := "success", "Profile updated successfully!";
          storedUser := Some(u);
        case Refused(error) =>
          messageType, messageText := "error", if Truthy(error) then error.value else "Failed to update profile";
        case NetworkFailure =>
          messageType, messageText := "error", "Network error while updating profile";
      }
      saving := false;
    }
  }
}
