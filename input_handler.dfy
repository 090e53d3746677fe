/**
 * frontend/src/components/InputHandler.tsx: a form that takes
 * "name,rating,maxRating,solved,unsolved", shows the parsed user and keeps it in local
 * storage under "cfUserInfo".
 */
module InputHandler {
  import opened Wrappers
  import Strings

  /** The component's `UserInfo`. */
  datatype EnteredUser = EnteredUser(name: string, rating: int, maxRating: int, solved: int, unsolved: int)

  /** The local-storage key. */
  const SavedUserKey := "cfUserInfo"

  /**
   * The five comma-separated fields, the name trimmed and the others converted by `num`,
   * which stands for JavaScript's `Number`; any other number of fields is rejected.
   */
  function ParseEntry(input: string, num: string -> int): (r: Option<EnteredUser>)
    ensures r.Some? <==> |Strings.Split(input, ',')| == 5
    ensures r.Some? <==> multiset(input)[','] == 4
    ensures r.Some? ==> var parts := Strings.Split(input, ',');
      r.value == EnteredUser(Strings.Trim(parts[0]), num(parts[1]), num(parts[2]), num(parts[3]), num(parts[4]))
  {
    var parts := Strings.Split(input, ',');
    if |parts| == 5 then
      Some(EnteredUser(Strings.Trim(parts[0]), num(parts[1]), num(parts[2]), num(parts[3]), num(parts[4])))
    else None
  }

  /** The five fields of an accepted entry are comma-free and, rejoined with commas, are the input. */
  lemma AcceptedFieldsAreTheInput(input: string, num: string -> int)
    requires ParseEntry(input, num).Some?
    ensures var p := Strings.Split(input, ',');
      |p| == 5 && Strings.Join(p, ',') == input && forall i :: 0 <= i < 5 ==> ',' !in p[i]
  {
    Strings.JoinSplit(input, ',');
  }

  /** The component's state and the part of local storage it uses. */
  class EnterHandle {
    var input: string
    var userInfo: Option<EnteredUser>
    var storage: map<string, EnteredUser>

    /** Mounting: the empty form, showing the saved user when there is one. */
    constructor (saved: map<string, EnteredUser>)
      ensures input == "" && storage == saved
      ensures userInfo == (if SavedUserKey in saved then Some(saved[SavedUserKey]) else None)
    {
      input := "";
      storage := saved;
      userInfo := if SavedUserKey in saved then Some(saved[SavedUserKey]) else None;
    }

    /** The input's `onChange`. */
    method SetInput(value: string)
      modifies this
      ensures input == value && userInfo == old(userInfo) && storage == old(storage)
    {
      input := value;
    }

    /**
     * `handleSubmit`: an entry of five fields replaces the shown user, is saved, and clears the
     * form; any other entry changes nothing at all.
     */
    method HandleSubmit(num: string -> int)
      modifies this
      ensures ParseEntry(old(input), num).Some? ==>
        userInfo == ParseEntry(old(input), num)
        && storage == old(storage)[SavedUserKey := userInfo.value]
        && input == ""
      ensures ParseEntry(old(input), num).None? ==>
        userInfo == old(userInfo) && storage == old(storage) && input == old(input)
    {
      var parts := Strings.Split(input, ',');
      if |parts| == 5 {
        var newUser := EnteredUser(Strings.Trim(parts[0]), num(parts[1]), num(parts[2]), num(parts[3]), num(parts[4]));
        userInfo := Some(newUser);
        storage := storage[SavedUserKey := newUser];
        input := "";
      }
    }
  }
}
