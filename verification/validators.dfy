/**
 * The request-body schemas of src/utils/validators/index.ts, as the zod
 * parser applies them to a JSON body: a parse either fails or gives the
 * typed value, with unknown keys dropped and defaults filled in. The
 * e-mail format check is a parameter `isEmail`.
 */
module Validators {
  import opened DiscussionModel

  /** A JSON request body; a key that is not there reads as `Undefined`. */
  datatype Json = Undefined | Null | Bool(b: bool) | Num(n: real) | Str(s: string) | Obj(fields: map<string, Json>) | List(items: seq<Json>)

  function Get(fields: map<string, Json>, key: string): Json {
    if key in fields then fields[key] else Undefined
  }

  /** `String.prototype.length`: UTF-16 code units, two for a character outside the Basic Multilingual Plane. */
  function Utf16Length(s: string): (n: nat)
    ensures |s| <= n <= 2 * |s|
    ensures n == 0 <==> s == ""
  {
    if s == [] then 0 else (if s[0] as int > 0xFFFF then 2 else 1) + Utf16Length(s[1..])
  }

  /** `z.string().min(n)`. */
  function StringMin(v: Json, n: nat): (r: Option<string>)
    ensures r.Some? <==> v.Str? && Utf16Length(v.s) >= n
    ensures r.Some? ==> r.value == v.s
  {
    if v.Str? && Utf16Length(v.s) >= n then Some(v.s) else None
  }

  /** `z.string().email()`. */
  function Email(v: Json, isEmail: string -> bool): (r: Option<string>)
    ensures r.Some? <==> v.Str? && isEmail(v.s)
    ensures r.Some? ==> r.value == v.s
  {
    if v.Str? && isEmail(v.s) then Some(v.s) else None
  }

  datatype Signup = Signup(firstName: string, lastName: string, email: string)

  /** `signupSchema`: non-empty first and last names and an e-mail address. */
  function ParseSignup(v: Json, isEmail: string -> bool): (r: Option<Signup>)
    ensures r.Some? <==>
              && v.Obj?
              && Get(v.fields, "firstName").Str? && Get(v.fields, "firstName").s != ""
              && Get(v.fields, "lastName").Str? && Get(v.fields, "lastName").s != ""
              && Get(v.fields, "email").Str? && isEmail(Get(v.fields, "email").s)
    ensures r.Some? ==> r.value == Signup(v.fields["firstName"].s, v.fields["lastName"].s, v.fields["email"].s)
  {
    if !v.Obj? then None
    else
      var first := StringMin(Get(v.fields, "firstName"), 1);
      var last := StringMin(Get(v.fields, "lastName"), 1);
      var email := Email(Get(v.fields, "email"), isEmail);
      if first.Some? && last.Some? && email.Some? then Some(Signup(first.value, last.value, email.value)) else None
  }

  datatype VerifyEmail = VerifyEmail(email: string, token: string)

  /** `verifyEmailSchema`: an e-mail address and a token of exactly six UTF-16 code units. */
  function ParseVerifyEmail(v: Json, isEmail: string -> bool): (r: Option<VerifyEmail>)
    ensures r.Some? <==>
              && v.Obj?
              && Get(v.fields, "email").Str? && isEmail(Get(v.fields, "email").s)
              && Get(v.fields, "token").Str? && Utf16Length(Get(v.fields, "token").s) == 6
    ensures r.Some? ==> r.value == VerifyEmail(v.fields["email"].s, v.fields["token"].s)
    ensures r.Some? ==> 3 <= |r.value.token| <= 6
  {
    if !v.Obj? then None
    else
      var email := Email(Get(v.fields, "email"), isEmail);
      var token := Get(v.fields, "token");
      if email.Some? && token.Str? && Utf16Length(token.s) == 6 then Some(VerifyEmail(email.value, token.s)) else None
  }

  datatype Login = Login(email: string, password: string)

  /** `loginSchema`: an e-mail address and a password of at least six UTF-16 code units. */
  function ParseLogin(v: Json, isEmail: string -> bool): (r: Option<Login>)
    ensures r.Some? <==>
              && v.Obj?
              && Get(v.fields, "email").Str? && isEmail(Get(v.fields, "email").s)
              && Get(v.fields, "password").Str? && Utf16Length(Get(v.fields, "password").s) >= 6
    ensures r.Some? ==> r.value == Login(v.fields["email"].s, v.fields["password"].s)
  {
    if !v.Obj? then None
    else
      var email := Email(Get(v.fields, "email"), isEmail);
      var password := StringMin(Get(v.fields, "password"), 6);
      if email.Some? && password.Some? then Some(Login(email.value, password.value)) else None
  }

  /** `z.string().optional()`: absent, or a string. */
  function OptionalString(v: Json): (r: Option<Option<string>>)
    ensures r.Some? <==> v.Undefined? || v.Str?
    ensures r == Some(None) <==> v.Undefined?
    ensures r.Some? && r.value.Some? ==> v == Str(r.value.value)
  {
    match v
    case Undefined => Some(None)
    case Str(s) => Some(Some(s))
    case _ => None
  }

  datatype Goals = Goals(mindfulness: real, warmUp: real, games: real, scriptActing: real, reading: real)

  const DEFAULT_GOAL: real := 5.0
  const DEFAULT_GOALS := Goals(DEFAULT_GOAL, DEFAULT_GOAL, DEFAULT_GOAL, DEFAULT_GOAL, DEFAULT_GOAL)

  predicate GoalInRange(g: real) {
    2.0 <= g <= 20.0
  }

  predicate GoalsInRange(g: Goals) {
    GoalInRange(g.mindfulness) && GoalInRange(g.warmUp) && GoalInRange(g.games)
    && GoalInRange(g.scriptActing) && GoalInRange(g.reading)
  }

  /** `z.number().min(2).max(20).default(5)`. */
  function Goal(v: Json): (r: Option<real>)
    ensures r.Some? <==> v.Undefined? || (v.Num? && GoalInRange(v.n))
    ensures v.Undefined? ==> r == Some(DEFAULT_GOAL)
    ensures v.Num? && r.Some? ==> r.value == v.n
    ensures r.Some? ==> GoalInRange(r.value)
  {
    if v.Undefined? then Some(DEFAULT_GOAL)
    else if v.Num? && GoalInRange(v.n) then Some(v.n)
    else None
  }

  /** The number the body gives, or the default goal when it gives none. */
  function GivenOr(v: Json): real {
    if v.Num? then v.n else DEFAULT_GOAL
  }

  /** The `dailyGoal` object: each goal in [2, 20], 5 when left out, all five when the object is left out. */
  function ParseGoals(v: Json): (r: Option<Goals>)
    ensures v.Undefined? ==> r == Some(DEFAULT_GOALS)
    ensures r.Some? ==> GoalsInRange(r.value)
    ensures r.Some? <==> v.Undefined? || (v.Obj? && forall k :: k in GOAL_KEYS ==> Goal(Get(v.fields, k)).Some?)
    ensures v.Obj? && r.Some? ==> r.value.mindfulness == GivenOr(Get(v.fields, "mindfulness"))
    ensures v.Obj? && r.Some? ==> r.value.warmUp == GivenOr(Get(v.fields, "warmUp"))
    ensures v.Obj? && r.Some? ==> r.value.games == GivenOr(Get(v.fields, "games"))
    ensures v.Obj? && r.Some? ==> r.value.scriptActing == GivenOr(Get(v.fields, "scriptActing"))
    ensures v.Obj? && r.Some? ==> r.value.reading == GivenOr(Get(v.fields, "reading"))
  {
    if v.Undefined? then Some(DEFAULT_GOALS)
    else if !v.Obj? then None
    else
      var f := v.fields;
      var m, w, g, s, r := Goal(Get(f, "mindfulness")), Goal(Get(f, "warmUp")), Goal(Get(f, "games")),
                           Goal(Get(f, "scriptActing")), Goal(Get(f, "reading"));
      if m.Some? && w.Some? && g.Some? && s.Some? && r.Some? then Some(Goals(m.value, w.value, g.value, s.value, r.value))
      else None
  }

  const GOAL_KEYS: set<string> := {"mindfulness", "warmUp", "games", "scriptActing", "reading"}

  datatype Onboarding = Onboarding(why: string, stutterGrade: string, dailyGoal: Goals, dob: Option<string>, reminder: Option<string>)

  /** `onboardingSchema`. */
  function ParseOnboarding(v: Json): (r: Option<Onboarding>)
    ensures r.Some? <==>
              && v.Obj?
              && Get(v.fields, "why").Str? && Get(v.fields, "why").s != ""
              && Get(v.fields, "stutterGrade").Str? && Get(v.fields, "stutterGrade").s != ""
              && ParseGoals(Get(v.fields, "dailyGoal")).Some?
              && OptionalString(Get(v.fields, "dob")).Some?
              && OptionalString(Get(v.fields, "reminder")).Some?
    ensures r.Some? ==> r.value.why != "" && r.value.stutterGrade != "" && GoalsInRange(r.value.dailyGoal)
    ensures r.Some? && "dailyGoal" !in v.fields ==> r.value.dailyGoal == DEFAULT_GOALS
    ensures r.Some? ==> r.value.why == v.fields["why"].s && r.value.stutterGrade == v.fields["stutterGrade"].s
    ensures r.Some? ==> r.value.dailyGoal == ParseGoals(Get(v.fields, "dailyGoal")).value
    ensures r.Some? ==> r.value.dob == (if Get(v.fields, "dob").Str? then Some(Get(v.fields, "dob").s) else None)
    ensures r.Some? ==> r.value.reminder == (if Get(v.fields, "reminder").Str? then Some(Get(v.fields, "reminder").s) else None)
  {
    if !v.Obj? then None
    else
      var why := StringMin(Get(v.fields, "why"), 1);
      var grade := StringMin(Get(v.fields, "stutterGrade"), 1);
      var goals := ParseGoals(Get(v.fields, "dailyGoal"));
      var dob := OptionalString(Get(v.fields, "dob"));
      var reminder := OptionalString(Get(v.fields, "reminder"));
      if why.Some? && grade.Some? && goals.Some? && dob.Some? && reminder.Some? then
        Some(Onboarding(why.value, grade.value, goals.value, dob.value, reminder.value))
      else None
  }

  /** A goal left out of a given `dailyGoal` object comes out as 5. */
  lemma GoalDefault(v: Json, key: string)
    requires v.Obj? && key in GOAL_KEYS && key !in v.fields
    requires ParseGoals(v).Some?
    ensures var g := ParseGoals(v).value;
            match key
            case "mindfulness" => g.mindfulness == 5.0
            case "warmUp" => g.warmUp == 5.0
            case "games" => g.games == 5.0
            case "scriptActing" => g.scriptActing == 5.0
            case _ => g.reading == 5.0
  {
  }

  /** The value kinds of the optional fields of `updateUserSchema`. */
  datatype Leaf = Text | Mail | Flag | Date

  datatype Kind = Plain(leaf: Leaf) | Nested(fields: map<string, Leaf>)

  /** `updateUserSchema`: every field, and every field of its two sub-objects, is optional. */
  const UPDATE_USER: map<string, Kind> := map[
    "googleId" := Plain(Text), "provider" := Plain(Text), "firstName" := Plain(Text),
    "lastName" := Plain(Text), "email" := Plain(Mail), "password" := Plain(Text),
    "phone" := Plain(Text), "dob" := Plain(Text), "profileImage" := Plain(Text),
    "communityInfo" := Nested(map["joined" := Flag, "author" := Text, "bio" := Text]),
    "onboardingInfo" := Nested(map["onboarded" := Flag, "reminder" := Text, "fearedWords" := Text]),
    "displayName" := Plain(Text), "bio" := Plain(Text), "isVerified" := Plain(Flag),
    "resetPasswordToken" := Plain(Text), "resetPasswordExpires" := Plain(Date)
  ]

  /** A present value of a leaf kind; a JSON body holds no `Date`, so `z.date()` takes none. */
  predicate LeafAccepts(leaf: Leaf, v: Json, isEmail: string -> bool) {
    match leaf
    case Text => v.Str?
    case Mail => v.Str? && isEmail(v.s)
    case Flag => v.Bool?
    case Date => false
  }

  predicate OptionalLeaf(leaf: Leaf, v: Json, isEmail: string -> bool) {
    v.Undefined? || LeafAccepts(leaf, v, isEmail)
  }

  predicate OptionalField(kind: Kind, v: Json, isEmail: string -> bool) {
    match kind
    case Plain(leaf) => OptionalLeaf(leaf, v, isEmail)
    case Nested(fs) => v.Undefined? || (v.Obj? && forall k :: k in fs ==> OptionalLeaf(fs[k], Get(v.fields, k), isEmail))
  }

  /** A present value with the keys its schema does not know dropped. */
  function Strip(kind: Kind, v: Json): Json {
    match kind
    case Plain(_) => v
    case Nested(fs) =>
      if v.Obj? then Obj(map k | k in fs && k in v.fields && !v.fields[k].Undefined? :: v.fields[k]) else v
  }

  /** `updateUserSchema`: the known fields that are present, each stripped of unknown keys. */
  function ParseUpdateUser(v: Json, isEmail: string -> bool): (r: Option<map<string, Json>>)
    ensures r.Some? <==> v.Obj? && forall k :: k in UPDATE_USER ==> OptionalField(UPDATE_USER[k], Get(v.fields, k), isEmail)
    ensures r.Some? ==> forall k :: k in r.value <==> k in UPDATE_USER && k in v.fields && !v.fields[k].Undefined?
    ensures r.Some? ==> forall k :: k in r.value ==> r.value[k] == Strip(UPDATE_USER[k], v.fields[k])
  {
    if v.Obj? && forall k :: k in UPDATE_USER ==> OptionalField(UPDATE_USER[k], Get(v.fields, k), isEmail) then
      Some(map k | k in UPDATE_USER && k in v.fields && !v.fields[k].Undefined? :: Strip(UPDATE_USER[k], v.fields[k]))
    else None
  }

  /** The empty object passes `updateUserSchema`, and so does any accepted body with a field left out. */
  lemma UpdateUserAllOptional(v: Json, key: string, isEmail: string -> bool)
    requires ParseUpdateUser(v, isEmail).Some?
    ensures ParseUpdateUser(Obj(map[]), isEmail) == Some(map[])
    ensures ParseUpdateUser(Obj(v.fields - {key}), isEmail).Some?
  {
    var u := Obj(v.fields - {key});
    forall k | k in UPDATE_USER ensures OptionalField(UPDATE_USER[k], Get(u.fields, k), isEmail) {
      assert Get(u.fields, k) == if k == key then Undefined else Get(v.fields, k);
    }
  }
}
