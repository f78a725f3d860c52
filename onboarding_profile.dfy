/**
 * The first onboarding step, src/app/onboarding/profile/page.tsx: a form whose submit handler
 * checks the four required fields, builds the profile record, stores it in the browser's local
 * storage for the later steps and moves on to the timetable step. `Number(age)` and the
 * storage write's failure are parameters; the storage and the router are the submission's result.
 */
module OnboardingProfile {
  import opened Common

  /** The gender buttons, in display order. */
  const GenderOptions: seq<string> := ["Male", "Female", "Other"]

  const StorageKey := "profileStep1"
  const NextPath := "/onboarding/timetable"
  const RequiredError := "Please fill in all required fields."
  const SaveError := "An error occurred. Please try again."

  /** The `profile` insert the step builds. */
  datatype ProfileRecord = ProfileRecord(
    firstName: string, lastName: string, zid: string, degree: string,
    gender: string, age: Option<real>, bio: string, icsLink: string)

  /** What the submit handler did besides updating the form state. */
  datatype Submission = Rejected | Saved(key: string, record: ProfileRecord, path: string) | SaveFailed

  /** `!firstName || !lastName || !zid || !degree`. */
  predicate MissingRequired(firstName: string, lastName: string, zid: string, degree: string) {
    firstName == "" || lastName == "" || zid == "" || degree == ""
  }

  /** `age ? Number(age) : null`: the empty input gives no age. */
  function AgeField(age: string, number: string -> real): (r: Option<real>)
    ensures r.None? <==> age == ""
    ensures r.Some? ==> r.value == number(age)
  {
    if age == "" then None else Some(number(age))
  }

  class ProfileForm {
    var firstName: string
    var lastName: string
    var zid: string
    var degree: string
    var gender: string
    var age: string
    var bio: string
    var loading: bool
    var error: Option<string>

    /** The gender is still unset or one of the buttons' values. */
    ghost predicate Valid()
      reads this
    {
      gender == "" || gender in GenderOptions
    }

    constructor()
      ensures Valid()
      ensures firstName == "" && lastName == "" && zid == "" && degree == ""
      ensures gender == "" && age == "" && bio == "" && !loading && error.None?
    {
      firstName, lastName, zid, degree := "", "", "", "";
      gender, age, bio := "", "", "";
      loading := false;
      error := None;
    }

    /** The text inputs' `onChange` handlers, all at once. */
    method SetFields(firstName: string, lastName: string, zid: string, degree: string, age: string, bio: string)
      requires Valid()
      modifies this
      ensures Valid()
      ensures this.firstName == firstName && this.lastName == lastName && this.zid == zid
      ensures this.degree == degree && this.age == age && this.bio == bio
      ensures gender == old(gender) && loading == old(loading) && error == old(error)
    {
      this.firstName, this.lastName, this.zid, this.degree := firstName, lastName, zid, degree;
      this.age, this.bio := age, bio;
    }

    /** Clicking the gender button at position `k`. */
    method ChooseGender(k: nat)
      requires Valid() && k < |GenderOptions|
      modifies this
      ensures Valid()
      ensures gender == GenderOptions[k]
      ensures firstName == old(firstName) && lastName == old(lastName) && zid == old(zid)
      ensures degree == old(degree) && age == old(age) && bio == old(bio)
      ensures loading == old(loading) && error == old(error)
    {
      gender := GenderOptions[k];
    }

    /**
     * `handleSubmit`: a missing required field records the error and stores nothing; otherwise
     * the record is written under `profileStep1` and the router moves on, unless the write
     * throws. Loading ends on every path and the fields are kept.
     */
    method HandleSubmit(number: string -> real, storageFails: bool) returns (r: Submission)
      requires Valid()
      modifies this
      ensures Valid() && !loading
      ensures firstName == old(firstName) && lastName == old(lastName) && zid == old(zid)
      ensures degree == old(degree) && gender == old(gender) && age == old(age) && bio == old(bio)
      ensures r.Rejected? <==> MissingRequired(firstName, lastName, zid, degree)
      ensures r.Rejected? ==> error == Some(RequiredError)
      ensures r.SaveFailed? <==> !MissingRequired(firstName, lastName, zid, degree) && storageFails
      ensures r.SaveFailed? ==> error == Some(SaveError)
      ensures r.Saved? ==> error.None? && r.key == StorageKey && r.path == NextPath
      ensures r.Saved? ==> r.record == ProfileRecord(firstName, lastName, zid, degree, gender,
                                                     AgeField(age, number), bio, "")
    {
      loading := true;
      error := None;
      if MissingRequired(firstName, lastName, zid, degree) {
        error := Some(RequiredError);
        loading := false;
        return Rejected;
      }
      var profileData := ProfileRecord(firstName, lastName, zid, degree, gender, AgeField(age, number), bio, "");
      if storageFails {
        error := Some(SaveError);
        r := SaveFailed;
      } else {
        r := Saved(StorageKey, profileData, NextPath);
      }
      loading := false;
    }
  }
}
