# Authentication and authorization gateway of the gym, news and OAuth demo services

A Dafny model of the security boundary of five Spring Security configurations in
this repository:

- the GymServer;
- the older gym application it replaced;
- the news API;
- the news web front end;
- the Google OAuth demo.

It also models the account logic that feeds that boundary:

- the credential lookups;
- the create, update and delete rules of the admin, trainer and member services;
- the member endpoints, including profile completion;
- the news registration endpoint.

## Modules

- `Wrappers`: `Option` and `Result`.
- `Matrix`: the generic authorization matrix.
  - Requests, callers and decisions (200, 401, 403).
  - Path patterns built from literal segments, `{id}` segments and a trailing `/**`.
  - Rules: an optional HTTP method, patterns, and `permitAll`, `authenticated()` or `hasAnyRole(...)`.
  - First-match evaluation; a request no rule matches is refused.
- `MatrixFacts`: general facts about first-match evaluation.
  - Which rule decides.
  - Catch-alls that shadow later rules.
  - Subsumed rules that can be dropped.
  - Blocks of mutually exclusive rules that can be reordered.
  - The `ROLE_` prefix convention.
- `Policies`: the five rule lists, one rule per `requestMatchers` line in source order, each configuration's CSRF setting, and the login and logout endpoints its framework filters answer.
- `GymServerPolicy`, `LegacyGymPolicy`, `NewsPolicy`, `GooglePolicy`: each rule list proved equal to an independently written access table, plus the route-level consequences.
- `JavaText`: Java's notion of a blank string.
- `Accounts`: the credential store, with three partitions of accounts (admins, trainers, members).
  - A table is its rows plus the next identity value.
  - `save` replaces the row with the same identity or appends.
  - `deleteById` removes one identity.
- `AccountServices`: the shared create and update rules and the nine service operations.
- `UserDetailsLookup`: the user-record lookups.
  - The GymServer's admin → trainer → member lookup.
  - The older duplicate of that lookup.
  - The news lookup, which grants the raw stored role.
- `Tokens`: the token and password-login logic.
  - Token claims and the JSON login body.
  - The two login success handlers: with and without a role claim.
  - Validation against the clock.
  - The two converters: trust the role claim, or re-read the store.
  - Password login.
- `Gateway`: the filter chain of each configuration, in order.
  - The CSRF check comes first.
  - The login, logout and provider-login endpoints answer next.
  - Bearer-token authentication follows, in the resource servers.
  - The rules come last.
- `Members`: the member service queries and the member controller.
- `NewsAuth`: the news registration endpoint.

## Modelling decisions

**External behaviour given as parameters**
- Token signing is abstract. A token encoder and decoder are parameters. Where a proof needs them to agree, the lemma assumes that decoding an encoded claim set gives it back.
- The password hash and the password check are uninterpreted functions.
- The clock is an integer parameter, in seconds.

**Framework behaviour the code relies on**
- Token validation uses the framework default: a token is accepted up to 60 seconds past its expiry.
- The CSRF filter runs before authentication and authorization. Only `GET`, `HEAD`, `TRACE` and `OPTIONS` are exempt.
- The two store-backed resource servers also exempt a request that carries a bearer token.
- A bearer token is validated before the rules are consulted, so a bad token is refused even on a `permitAll` path.
- An unknown token subject is an authentication failure (401).
- A missing role claim in the GymServer converter raises `IllegalArgumentException`, and it is modelled as a server error. So is a user record the framework refuses to build, and a finder query that matches more than one row.
- The news web front end also enables HTTP Basic. Its filter runs after the login and logout endpoints and before the rules. Credentials in an `Authorization: Basic` header are checked unless the session already holds a caller of that username. When they authenticate, their caller is used; when they fail, including for a name stored twice, the answer is 401 on any path.
- Every configuration enables form login without a page of its own and keeps the default logout, and the Google demo also enables OAuth login. Their filters run before bearer authentication and the rules: `POST /login` processes a login, `GET /login` serves the generated page, `/logout` logs out (on `POST` only when CSRF is on, and also on `GET`, `PUT` and `DELETE` when it is off), `GET /logout` otherwise serves a confirmation page, and in the Google demo `/oauth2/authorization/{id}` and `/login/oauth2/code/{id}` start and finish the provider login. The gates answer these requests as `Handled` without consulting the rules.

**Consequences of the code worth stating**
- Self-service writes are ADMIN-only. In the GymServer every non-GET request off the public paths needs `ROLE_ADMIN`, `PUT /members/me` and `POST /members/complete-profile` included.
- A token without a role claim gives a server error, not a 401.
- Role prefixes are never normalised. The GymServer authority is the claim verbatim. The news configurations grant the raw stored role, so `hasRole("ADMIN")` needs a stored role of `ROLE_ADMIN`.
- A demoted ADMIN loses access on the next request only in the older gym application, which re-reads the store. A GymServer token keeps its role claim until it expires.
- The public routes include `/actuator/**` and `/h2-console/**`. There is no `/oauth2/**` rule.
- A username stored twice in one table makes every lookup of it fail: the repository finders return an `Optional`, and a query that matches two rows throws.

## Model

| member | source | states |
|---|---|---|
| Matrix.RoleAuthority | GymManagementApp/GymServer/src/main/java/com/redmath/GymManagementApp/config/CustomUserDetailsService.java:26 | the authority for role r is "ROLE_" followed by r, and r can be read back from it after the prefix |
| Matrix.FirstMatchFrom | GymManagementApp/GymServer/src/main/java/com/redmath/GymManagementApp/config/SecurityConfig.java:84-105 | the rule found is the earliest matching rule at or after k; no rule before it matches; when none is found, no rule from k on matches |
| Matrix.Apply | GymManagementApp/GymServer/src/main/java/com/redmath/GymManagementApp/config/SecurityConfig.java:84-105 | permitAll always permits; authenticated() permits every logged-in caller; hasAnyRole(R) permits a logged-in caller exactly when one of its authorities is ROLE_r for some r in R; a refusal is 401 for an anonymous caller and 403 otherwise |
| MatrixFacts.FirstMatchIs | GymManagementApp/GymServer/src/main/java/com/redmath/GymManagementApp/config/SecurityConfig.java:84-105 | the first match is the earliest index whose rule matches the request |
| MatrixFacts.DecideByEarliestRule | GymManagementApp/GymServer/src/main/java/com/redmath/GymManagementApp/config/SecurityConfig.java:84-105 | the decision is the access of the earliest matching rule applied to the caller |
| MatrixFacts.DecideWithoutMatch | GymManagementApp/GymServer/src/main/java/com/redmath/GymManagementApp/config/SecurityConfig.java:84-105 | a request no rule matches is refused: 401 when anonymous, 403 otherwise |
| MatrixFacts.CatchAllShadows | GymManagementApp/src/main/java/com/redmath/GymManagementApp/config/SecurityConfig.java:74-85 | with a rule matching every request at index k, some rule at or before k always decides |
| MatrixFacts.RulesAfterCatchAllAreDead | GymManagementApp/src/main/java/com/redmath/GymManagementApp/config/SecurityConfig.java:74-85 | deleting every rule after a catch-all changes no decision |
| MatrixFacts.DecideAppend | GymManagementApp/GymServer/src/main/java/com/redmath/GymManagementApp/config/SecurityConfig.java:84-105 | in a list split into a head and a tail, the head decides whenever one of its rules matches, and otherwise the tail decides |
| MatrixFacts.DropSubsumedRule | newsproject/src/main/java/com/redmath/newsproject/Config/ApiSecurityConfiguration.java:69-70 | a rule whose matches are all matches of the next rule, with the same access, can be deleted without changing any decision |
| MatrixFacts.PermuteExclusiveBlock | newsproject/src/main/java/com/redmath/newsproject/Config/SecurityConfig.java:36-39 | reordering a block of rules that never match the same request changes no decision, wherever the block sits in the list |
| MatrixFacts.RoleAuthorityInjective | GymManagementApp/GymServer/src/main/java/com/redmath/GymManagementApp/config/CustomUserDetailsService.java:25-27 | two roles give the same authority only when they are the same role |
| MatrixFacts.SingleRoleAuthority | GymManagementApp/GymServer/src/main/java/com/redmath/GymManagementApp/config/SecurityConfig.java:92-101 | a caller whose one authority is ROLE_r passes hasAnyRole(R) exactly when r is in R |
| MatrixFacts.RoleNeverDenied | GymManagementApp/GymServer/src/main/java/com/redmath/GymManagementApp/config/SecurityConfig.java:86-101 | if every rule admits ROLE_r and some rule catches everything, a holder of ROLE_r is permitted everything |
| Policies.ExactMatches | GymManagementApp/GymServer/src/main/java/com/redmath/GymManagementApp/config/SecurityConfig.java:86 | a pattern without wildcards matches exactly its own path |
| Policies.UnderMatches | GymManagementApp/GymServer/src/main/java/com/redmath/GymManagementApp/config/SecurityConfig.java:86-89 | "/x/**" matches x itself and every path below it |
| Policies.TrainerIdMatches | GymManagementApp/GymServer/src/main/java/com/redmath/GymManagementApp/config/SecurityConfig.java:94 | "/trainers/{id}" matches "trainers" followed by exactly one non-empty segment |
| Policies.AnyPatternMatchesIff | GymManagementApp/GymServer/src/main/java/com/redmath/GymManagementApp/config/SecurityConfig.java:86 | a rule with several patterns matches when any one of them does |
| Policies.FilterEndpoint | GymManagementApp/GymServer/src/main/java/com/redmath/GymManagementApp/config/SecurityConfig.java:52-72 | the framework filters answer only /login, /logout and, with OAuth login, the provider paths: /login on GET and POST; /logout on POST, and also on GET, PUT and DELETE when CSRF is off |
| GymServerPolicy.PublicDecided | GymManagementApp/GymServer/src/main/java/com/redmath/GymManagementApp/config/SecurityConfig.java:86-89 | every request on the public list (docs, login, actuator, h2-console, any OPTIONS, GET news) is permitted to anyone |
| GymServerPolicy.DecisionTable | GymManagementApp/GymServer/src/main/java/com/redmath/GymManagementApp/config/SecurityConfig.java:84-105 | first-match evaluation of the GymServer rules equals the independently written access table, for every method, path and caller |
| GymServerPolicy.TrainerListAccess | GymManagementApp/GymServer/src/main/java/com/redmath/GymManagementApp/config/SecurityConfig.java:92 | GET /trainers is permitted exactly to ROLE_MEMBER, ROLE_TRAINER or ROLE_ADMIN and forbidden to every other logged-in caller |
| GymServerPolicy.OwnProfileAccess | GymManagementApp/GymServer/src/main/java/com/redmath/GymManagementApp/config/SecurityConfig.java:93 | GET /members/me is permitted exactly to MEMBER or ADMIN; a TRAINER is forbidden |
| GymServerPolicy.TrainerByIdAccess | GymManagementApp/GymServer/src/main/java/com/redmath/GymManagementApp/config/SecurityConfig.java:94 | GET /trainers/{id} is permitted exactly to TRAINER or ADMIN; a MEMBER is forbidden |
| GymServerPolicy.MemberListAccess | GymManagementApp/GymServer/src/main/java/com/redmath/GymManagementApp/config/SecurityConfig.java:97-98 | GET /members and GET /members/by-trainer/** (the bare prefix included) are permitted exactly to TRAINER or ADMIN; a MEMBER is forbidden |
| GymServerPolicy.NonGetIsAdminOnly | GymManagementApp/GymServer/src/main/java/com/redmath/GymManagementApp/config/SecurityConfig.java:101-104 | every non-GET, non-OPTIONS request off the any-method public paths needs ROLE_ADMIN |
| GymServerPolicy.SelfServiceWritesAreAdminOnly | GymManagementApp/GymServer/src/main/java/com/redmath/GymManagementApp/config/SecurityConfig.java:101 | PUT /members/me and POST /members/complete-profile need ROLE_ADMIN |
| GymServerPolicy.AnyRequestNeverDecides | GymManagementApp/GymServer/src/main/java/com/redmath/GymManagementApp/config/SecurityConfig.java:101-104 | the final anyRequest().authenticated() rule never decides a request |
| GymServerPolicy.AdminNeverDenied | GymManagementApp/GymServer/src/main/java/com/redmath/GymManagementApp/config/SecurityConfig.java:86-101 | a caller holding ROLE_ADMIN is permitted every request |
| GymServerPolicy.AnonymousAccess | GymManagementApp/GymServer/src/main/java/com/redmath/GymManagementApp/config/SecurityConfig.java:86-89 | without a token a request is permitted exactly when it is public, and is otherwise refused as unauthenticated, never as forbidden |
| LegacyGymPolicy.LegacyPublicDecided | GymManagementApp/src/main/java/com/redmath/GymManagementApp/config/SecurityConfig.java:69-71 | the older public list (docs, login, h2-console, GET news) is permitted to anyone |
| LegacyGymPolicy.LegacyDecisionTable | GymManagementApp/src/main/java/com/redmath/GymManagementApp/config/SecurityConfig.java:68-86 | first-match evaluation of the older rules equals the independently written table: public requests open, everything else ADMIN only |
| LegacyGymPolicy.LegacyRoleRulesAreDead | GymManagementApp/src/main/java/com/redmath/GymManagementApp/config/SecurityConfig.java:74-85 | only the first four rules ever decide; the role rules and anyRequest() after "/**" never do |
| LegacyGymPolicy.LegacyNonAdminForbidden | GymManagementApp/src/main/java/com/redmath/GymManagementApp/config/SecurityConfig.java:74-85 | off the public routes a logged-in caller is permitted exactly when it holds ROLE_ADMIN |
| LegacyGymPolicy.LegacyRoleRoutesLocked | GymManagementApp/src/main/java/com/redmath/GymManagementApp/config/SecurityConfig.java:74-83 | a TRAINER is forbidden GET /members and GET /trainers, and a MEMBER is forbidden GET /members/me, although rules for exactly these routes are written |
| LegacyGymPolicy.LegacyPreflightNeedsToken | GymManagementApp/src/main/java/com/redmath/GymManagementApp/config/SecurityConfig.java:69-71 | an OPTIONS request off the public paths without a token is refused as unauthenticated |
| LegacyGymPolicy.ReorderedRoleRoutesOpen | GymManagementApp/src/main/java/com/redmath/GymManagementApp/config/SecurityConfig.java:76-83 | with the ADMIN catch-all moved after the role rules, the TRAINER and MEMBER requests above are permitted |
| LegacyGymPolicy.ReorderedTrainerList | GymManagementApp/src/main/java/com/redmath/GymManagementApp/config/SecurityConfig.java:77 | after the move, GET /trainers is decided by the TRAINER rule |
| LegacyGymPolicy.ReorderedMemberList | GymManagementApp/src/main/java/com/redmath/GymManagementApp/config/SecurityConfig.java:78 | after the move, GET /members is decided by the TRAINER rule |
| LegacyGymPolicy.ReorderedOwnProfile | GymManagementApp/src/main/java/com/redmath/GymManagementApp/config/SecurityConfig.java:82 | after the move, GET /members/me is decided by the MEMBER rule |
| LegacyGymPolicy.MovingCatchAllChangesOutcome | GymManagementApp/src/main/java/com/redmath/GymManagementApp/config/SecurityConfig.java:74-78 | moving the catch-all changes at least one outcome: the same TRAINER request is refused before the move and granted after it |
| LegacyGymPolicy.MemberTrainerListStillShadowed | GymManagementApp/src/main/java/com/redmath/GymManagementApp/config/SecurityConfig.java:77-83 | even after the move, a MEMBER listing trainers is forbidden, because the TRAINER-only rule for the same route comes first |
| LegacyGymPolicy.ConfigsDisagreeOnTrainerList | GymManagementApp/src/main/java/com/redmath/GymManagementApp/config/SecurityConfig.java:74-83 | GET /trainers by a MEMBER is forbidden here and permitted by the GymServer rules |
| LegacyGymPolicy.ConfigsDisagreeOnPreflight | GymManagementApp/GymServer/src/main/java/com/redmath/GymManagementApp/config/SecurityConfig.java:88 | a preflight without a token is refused by the older rules and permitted by the GymServer rules |
| NewsPolicy.NewsApiDecisionTable | newsproject/src/main/java/com/redmath/newsproject/Config/ApiSecurityConfiguration.java:67-71 | first-match evaluation of the news API rules equals its table: docs and GET news open, everything else needs a login |
| NewsPolicy.NewsApiIgnoresRoles | newsproject/src/main/java/com/redmath/newsproject/Config/ApiSecurityConfiguration.java:71 | every logged-in caller is permitted every request, whatever its authorities |
| NewsPolicy.NewsWritesNeedToken | newsproject/src/main/java/com/redmath/newsproject/Config/ApiSecurityConfiguration.java:69-71 | POST, PUT and DELETE on the news collection need a login, while GET on it does not |
| NewsPolicy.NewsListRuleRedundant | newsproject/src/main/java/com/redmath/newsproject/Config/ApiSecurityConfiguration.java:69-70 | the rule for exactly /api/v1/news can be deleted without changing any decision, since the /** rule after it covers it |
| NewsPolicy.NewsWebDecisionTable | newsproject/src/main/java/com/redmath/newsproject/Config/SecurityConfig.java:35-45 | first-match evaluation of the web rules equals its table: /login, /auth/**, /h2-console/** and /login/** open, /admin/** needs ROLE_ADMIN, everything else needs a login |
| NewsPolicy.NewsWebBlockExclusive | newsproject/src/main/java/com/redmath/newsproject/Config/SecurityConfig.java:36-39 | the four consecutive rules guard four different first segments, so no request matches two of them |
| NewsPolicy.NewsWebBlockOrderIrrelevant | newsproject/src/main/java/com/redmath/newsproject/Config/SecurityConfig.java:36-39 | writing the four lines in any order gives the same decision for every request |
| NewsPolicy.NewsAdminNeedsPrefixedRole | newsproject/src/main/java/com/redmath/newsproject/Config/SecurityConfig.java:37 | on /admin/** a user whose stored role is "ROLE_ADMIN" is permitted and one whose stored role is "ADMIN" is forbidden |
| GooglePolicy.GoogleDecisionTable | SprigSecurity-Google/src/main/java/com/redmath/SprigSecurity/Google/SecurityConfig.java:17-20 | only the exact path "/" is open; every other request needs a login |
| GooglePolicy.Logout | SprigSecurity-Google/src/main/java/com/redmath/SprigSecurity/Google/SecurityConfig.java:21-25 | logout leaves no logged-in caller and lands on a page that is open to it |
| GooglePolicy.GoogleNeverForbids | SprigSecurity-Google/src/main/java/com/redmath/SprigSecurity/Google/SecurityConfig.java:17-20 | no request is ever refused for lack of a role, and a logged-in caller is permitted everything |
| Accounts.FindById | GymManagementApp/GymServer/src/main/java/com/redmath/GymManagementApp/member/MemberService.java:23-25 | an account is found exactly when some stored row has that identity, and it is such a row |
| Accounts.FindByUsername | GymManagementApp/GymServer/src/main/java/com/redmath/GymManagementApp/member/MemberRepository.java:9 | no row for a name it holds none of, the one row for a name it holds once, and the non-unique-result failure for a name it holds twice or more |
| Accounts.FindByUsernameIsFirstNamed | GymManagementApp/GymServer/src/main/java/com/redmath/GymManagementApp/member/MemberRepository.java:9 | the finder answers no row exactly when the first-hit reference finds nothing, one row exactly when the name is held once, and that row is the first-hit reference's |
| Accounts.FindAfterAppend | newsproject/src/main/java/com/redmath/newsproject/Controller/AuthController.java:22 | appending a row under another name leaves a lookup unchanged; appending one under u gives that row when u was free and the non-unique failure when u was taken |
| Accounts.Save | GymManagementApp/GymServer/src/main/java/com/redmath/GymManagementApp/admin/AdminService.java:33 | an account whose identity is stored replaces that row and keeps the table size; any other account is appended under the next identity value |
| Accounts.DeleteById | GymManagementApp/GymServer/src/main/java/com/redmath/GymManagementApp/admin/AdminService.java:52 | afterwards no row has that identity and exactly the rows with other identities remain, so deleting a missing identity removes nothing |
| Accounts.SavePreservesWellFormed | GymManagementApp/GymServer/src/main/java/com/redmath/GymManagementApp/member/MemberService.java:45 | saving keeps identities present, unique and below the next identity value |
| Accounts.SaveThenFind | GymManagementApp/GymServer/src/main/java/com/redmath/GymManagementApp/member/MemberService.java:45 | after a save the stored identity finds exactly the stored account |
| Accounts.SaveKeepsOthers | GymManagementApp/GymServer/src/main/java/com/redmath/GymManagementApp/member/MemberService.java:45 | a save changes what no other identity finds |
| Accounts.DeleteKeepsOthers | GymManagementApp/GymServer/src/main/java/com/redmath/GymManagementApp/member/MemberService.java:55 | deleting keeps the table well formed and changes what no other identity finds |
| AccountServices.Create | GymManagementApp/GymServer/src/main/java/com/redmath/GymManagementApp/admin/AdminService.java:29-34 | a null password fails; otherwise the stored account has the forced role, the hash of the given password, and the body's username and profile |
| AccountServices.Update | GymManagementApp/GymServer/src/main/java/com/redmath/GymManagementApp/admin/AdminService.java:37-48 | fails with the not-found message exactly when there is no new (non-null, non-empty) password and no stored account; otherwise stores the forced role and the new password's hash or else the stored hash, under the path identity when it is stored and otherwise as a new row under a fresh identity (see `Accounts.Save` under Left out) |
| AccountServices.CreateAdmin | GymManagementApp/GymServer/src/main/java/com/redmath/GymManagementApp/admin/AdminService.java:29-34 | succeeds exactly when a password is given, and stores role ADMIN |
| AccountServices.UpdateAdmin | GymManagementApp/GymServer/src/main/java/com/redmath/GymManagementApp/admin/AdminService.java:37-48 | stores role ADMIN; the only failure is "Admin not found" |
| AccountServices.DeleteAdmin | GymManagementApp/GymServer/src/main/java/com/redmath/GymManagementApp/admin/AdminService.java:51-53 | afterwards no admin has that identity |
| AccountServices.CreateTrainer | GymManagementApp/GymServer/src/main/java/com/redmath/GymManagementApp/trainer/TrainerService.java:27-31 | succeeds exactly when a password is given, and stores role TRAINER |
| AccountServices.UpdateTrainer | GymManagementApp/GymServer/src/main/java/com/redmath/GymManagementApp/trainer/TrainerService.java:33-46 | stores role TRAINER; the only failure is "Trainer not found" |
| AccountServices.DeleteTrainer | GymManagementApp/GymServer/src/main/java/com/redmath/GymManagementApp/trainer/TrainerService.java:48-50 | afterwards no trainer has that identity |
| AccountServices.CreateMember | GymManagementApp/GymServer/src/main/java/com/redmath/GymManagementApp/member/MemberService.java:27-31 | succeeds exactly when a password is given, and stores role MEMBER |
| AccountServices.UpdateMember | GymManagementApp/GymServer/src/main/java/com/redmath/GymManagementApp/member/MemberService.java:33-46 | stores role MEMBER; the only failure is "Member not found" |
| AccountServices.DeleteMember | GymManagementApp/GymServer/src/main/java/com/redmath/GymManagementApp/member/MemberService.java:54-56 | afterwards no member has that identity |
| AccountServices.BodyRoleAndIdIgnored | GymManagementApp/GymServer/src/main/java/com/redmath/GymManagementApp/admin/AdminService.java:38-39 | changing the identity or role in the request body changes nothing about an update, and changing the role changes nothing about a create |
| AccountServices.NoNewPasswordNoHashing | GymManagementApp/GymServer/src/main/java/com/redmath/GymManagementApp/trainer/TrainerService.java:39-43 | without a new password the outcome does not depend on the hash function, so it is never called |
| AccountServices.NewPasswordNeverNotFound | GymManagementApp/GymServer/src/main/java/com/redmath/GymManagementApp/admin/AdminService.java:41-42 | with a new password an update never fails with not found |
| AccountServices.UpdateStoredThenFind | GymManagementApp/GymServer/src/main/java/com/redmath/GymManagementApp/member/MemberService.java:33-46 | updating a stored identity keeps the table well formed; the identity then finds the account with the forced role and the right hash, and every other identity finds what it found before |
| AccountServices.CreateThenFind | GymManagementApp/GymServer/src/main/java/com/redmath/GymManagementApp/member/MemberService.java:27-31 | a created account is found under its new identity, and every other identity finds what it found before |
| AccountServices.DeleteRemovesOnlyId | GymManagementApp/GymServer/src/main/java/com/redmath/GymManagementApp/trainer/TrainerService.java:48-50 | a delete removes exactly the one identity |
| UserDetailsLookup.MakeUser | GymManagementApp/GymServer/src/main/java/com/redmath/GymManagementApp/config/CustomUserDetailsService.java:26 | the user record is built exactly when the username is non-empty, the password present and the authority has text, and then copies them unchanged |
| UserDetailsLookup.GymDetails | GymManagementApp/GymServer/src/main/java/com/redmath/GymManagementApp/config/CustomUserDetailsService.java:25-27 | a stored account becomes its username, its hash and the single authority ROLE_ followed by its role; the only failure is a record the framework refuses to build |
| UserDetailsLookup.LoadGymUser | GymManagementApp/GymServer/src/main/java/com/redmath/GymManagementApp/config/CustomUserDetailsService.java:30-44 | fails with "User not found with username: u" exactly when no partition has u, and with a non-unique-result failure exactly when the partition that answers holds u twice; a success has that username and one authority |
| UserDetailsLookup.LoadLegacyGymUser | GymManagementApp/src/main/java/com/redmath/GymManagementApp/config/CustomUserDetailsService.java:26-49 | a success carries the requested username |
| UserDetailsLookup.LoadNewsUser | newsproject/src/main/java/com/redmath/newsproject/Service/CustomUserDetailsService.java:19-32 | fails with "User not found" exactly when no user has the name and with a non-unique-result failure exactly when two users have it; a success copies the one stored user's name and hash, with the raw stored role as its one authority; the lookup beans of both news configurations are the same code |
| UserDetailsLookup.FindInConcat | GymManagementApp/GymServer/src/main/java/com/redmath/GymManagementApp/config/CustomUserDetailsService.java:30-44 | the first row named u in two lists in a row is the first list's when it has one, else the second list's |
| UserDetailsLookup.GymLookupIsFirstHit | GymManagementApp/GymServer/src/main/java/com/redmath/GymManagementApp/config/CustomUserDetailsService.java:30-44 | when no partition holds the name twice, the three-step lookup is one first-hit lookup over admins, then trainers, then members; when the answering partition holds it twice, the lookup fails as non-unique |
| UserDetailsLookup.AdminHitDecides | GymManagementApp/GymServer/src/main/java/com/redmath/GymManagementApp/config/CustomUserDetailsService.java:31-33 | an admin hit decides the lookup whatever the trainer and member partitions hold: the admin's record, or the non-unique failure when two admins have the name |
| UserDetailsLookup.TrainerHitAfterAdminMiss | GymManagementApp/GymServer/src/main/java/com/redmath/GymManagementApp/config/CustomUserDetailsService.java:35-37 | after an admin miss a trainer hit decides the lookup whatever the member partition holds: the trainer's record, or the non-unique failure when two trainers have the name |
| UserDetailsLookup.MemberHitAfterBothMiss | GymManagementApp/GymServer/src/main/java/com/redmath/GymManagementApp/config/CustomUserDetailsService.java:39-41 | when both other partitions miss, a member hit gives the member's record, or the non-unique failure when two members have the name |
| UserDetailsLookup.GymDetailsCopyRecord | GymManagementApp/GymServer/src/main/java/com/redmath/GymManagementApp/config/CustomUserDetailsService.java:25-41 | a found record is a stored account's username and hash with the single authority ROLE_ followed by its role |
| UserDetailsLookup.AnsweringRowDecides | GymManagementApp/GymServer/src/main/java/com/redmath/GymManagementApp/config/CustomUserDetailsService.java:30-44 | a row of the answering partition that holds the name once is the record the lookup returns |
| UserDetailsLookup.LegacyLookupAgrees | GymManagementApp/src/main/java/com/redmath/GymManagementApp/config/CustomUserDetailsService.java:26-49 | the older lookup returns the same result as the GymServer lookup for every store and name |
| Tokens.TokenBody | GymManagementApp/GymServer/src/main/java/com/redmath/GymManagementApp/config/SecurityConfig.java:66-67 | the login body is the fixed Bearer prefix, the token and the fixed "expires_in":3600 suffix, in that order |
| Tokens.ParseTokenBodyRoundTrip | GymManagementApp/GymServer/src/main/java/com/redmath/GymManagementApp/config/SecurityConfig.java:66-67 | reading the token back out of a login body gives the token that was written |
| Tokens.ParseTokenBodyExact | GymManagementApp/GymServer/src/main/java/com/redmath/GymManagementApp/config/SecurityConfig.java:66-67 | every body the reader accepts is the login body of the token it reads |
| Tokens.IssueWithRole | GymManagementApp/GymServer/src/main/java/com/redmath/GymManagementApp/config/SecurityConfig.java:52-67 | fails with "No authority found" exactly when the caller has no authority; otherwise the claims are the name, the first authority as the role claim and expiry now + 3600, and the body carries the signed token |
| Tokens.IssueSubjectOnly | GymManagementApp/src/main/java/com/redmath/GymManagementApp/config/SecurityConfig.java:47-57 | the claims are the name and expiry now + 3600, with no role claim, and the body carries the signed token; the news API handler is the same code |
| Tokens.Validate | GymManagementApp/GymServer/src/main/java/com/redmath/GymManagementApp/config/SecurityConfig.java:74 | a token validates exactly when its signature is genuine and the time is at most its expiry plus the 60-second skew, and then gives its claims |
| Tokens.ValidityWindow | GymManagementApp/GymServer/src/main/java/com/redmath/GymManagementApp/config/SecurityConfig.java:53-62 | a freshly issued token validates with its own claims until 3600 + 60 seconds after issue, and not afterwards |
| Tokens.ConvertRoleClaim | GymManagementApp/GymServer/src/main/java/com/redmath/GymManagementApp/config/SecurityConfig.java:75-79 | a missing or blank role claim is refused; otherwise the caller is the subject with the claim, unprefixed, as its one authority |
| Tokens.ConvertByLookup | GymManagementApp/src/main/java/com/redmath/GymManagementApp/config/SecurityConfig.java:61-64 | the caller is the subject with the authorities the store gives now; a lookup failure is passed on; the news API converter is the same code |
| Tokens.PasswordLogin | GymManagementApp/GymServer/src/main/java/com/redmath/GymManagementApp/config/SecurityConfig.java:52 | a form login succeeds exactly when the record loads and the password matches its hash, and then authenticates the record's name and authorities |
| Tokens.ClaimRoundTrip | GymManagementApp/GymServer/src/main/java/com/redmath/GymManagementApp/config/SecurityConfig.java:55-79 | the role claim written at login comes back from the converter, within the token's lifetime, as the caller's one authority |
| Tokens.StoredRoleReachesAuthorization | GymManagementApp/GymServer/src/main/java/com/redmath/GymManagementApp/config/SecurityConfig.java:55-79 | a loaded record whose one authority is ROLE_R logs in with a matching password; the token carries the claim ROLE_R, validates within its lifetime, and is read back as the authority ROLE_R, which passes hasAnyRole(S) exactly when R is in S |
| Tokens.StoredAccountReachesAuthorization | GymManagementApp/GymServer/src/main/java/com/redmath/GymManagementApp/config/SecurityConfig.java:52-79 | the stored row that answers a gym lookup, with role R, loads as ROLE_R, logs in with its password, and gets a token whose authority passes hasAnyRole(S) exactly when R is in S |
| Gateway.Authenticate | GymManagementApp/GymServer/src/main/java/com/redmath/GymManagementApp/config/SecurityConfig.java:74-80 | a token succeeds exactly when it validates and converts; an invalid token or an unknown subject gives 401, any other converter failure a server error |
| Gateway.BasicLogin | newsproject/src/main/java/com/redmath/newsproject/Config/SecurityConfig.java:60-76 | Basic credentials authenticate exactly when the news lookup loads the name and the password matches its hash, and only for a name stored once; the caller gets that name and the lookup's authorities |
| Gateway.ResourceServerGate | GymManagementApp/src/main/java/com/redmath/GymManagementApp/config/SecurityConfig.java:47-92 | a CSRF refusal gives 403 before anything else; then the login, logout and login-page endpoints answer; on a path that reaches the rules, without a bearer token the rules decide for the caller already known, a token that fails validation gives 401, and only a token can cause a server error |
| Gateway.GymServerGate | GymManagementApp/GymServer/src/main/java/com/redmath/GymManagementApp/config/SecurityConfig.java:52-105 | the login and logout endpoints (logout on GET, POST, PUT and DELETE, since CSRF is off) answer first; elsewhere, without a bearer token, the GymServer decides by its access table |
| Gateway.LegacyGate | GymManagementApp/src/main/java/com/redmath/GymManagementApp/config/SecurityConfig.java:47-92 | on a path that reaches the rules, without a bearer token and past the CSRF check, the older configuration decides by its table |
| Gateway.NewsApiGate | newsproject/src/main/java/com/redmath/newsproject/Config/ApiSecurityConfiguration.java:48-77 | on a path that reaches the rules, without a bearer token and past the CSRF check, the news API decides by its table |
| Gateway.NewsWebGate | newsproject/src/main/java/com/redmath/newsproject/Config/SecurityConfig.java:32-51 | a state-changing request without a CSRF token is refused with 403 whatever credentials come along; past that the login and logout endpoints answer; then Basic credentials that must be checked decide the caller when they authenticate and give 401 on any path when they do not; any other request is decided by the web table for the session's caller |
| Gateway.GoogleGate | SprigSecurity-Google/src/main/java/com/redmath/SprigSecurity/Google/SecurityConfig.java:15-27 | the login, logout and provider-login endpoints answer first; every other request is decided by the demo's table for the session's caller |
| Gateway.CsrfOnlyGuardsWrites | GymManagementApp/src/main/java/com/redmath/GymManagementApp/config/SecurityConfig.java:88-92 | only state-changing requests without a CSRF token are ever refused for CSRF, and without exemptions all of those are |
| Gateway.LegacyCsrfBeforeAuthentication | GymManagementApp/src/main/java/com/redmath/GymManagementApp/config/SecurityConfig.java:88-92 | a write to /members or /trainers without a bearer token and without a CSRF token is refused with 403 for every caller, an admin included; with a CSRF token it needs ROLE_ADMIN |
| Gateway.BearerSkipsCsrf | GymManagementApp/src/main/java/com/redmath/GymManagementApp/config/SecurityConfig.java:61-92 | in the two store-backed resource servers a request with a bearer token is never refused for CSRF |
| Gateway.NewsRegisterNeedsCsrfToken | newsproject/src/main/java/com/redmath/newsproject/Config/SecurityConfig.java:36-51 | POST /auth/register is refused without a CSRF token whatever credentials come along, and permitted with one when no Basic credentials come along |
| Gateway.BadBasicBeatsPermitAll | newsproject/src/main/java/com/redmath/newsproject/Config/SecurityConfig.java:34-40 | Basic credentials that fail, a name stored twice included, give 401 on every path that reaches the rules, public ones included, where the same request without them is decided by the web table; an anonymous GET /auth/register is permitted |
| Gateway.GoogleNeedsNoCsrfToken | SprigSecurity-Google/src/main/java/com/redmath/SprigSecurity/Google/SecurityConfig.java:16 | the presence of a CSRF token never changes a decision |
| Gateway.FrameworkEndpointsAnswerFirst | GymManagementApp/GymServer/src/main/java/com/redmath/GymManagementApp/config/SecurityConfig.java:52-72 | GET /login is the login page in all five configurations; in the GymServer DELETE /logout logs out; in the older application POST /logout needs a CSRF token and GET /logout is the confirmation page |
| Gateway.LoggedOutMustReauthenticate | SprigSecurity-Google/src/main/java/com/redmath/SprigSecurity/Google/SecurityConfig.java:19-27 | after logout any request off "/" and off the framework endpoints is refused as unauthenticated, those endpoints answer themselves, and the logout target "/" is permitted |
| Gateway.BadTokenBeatsPermitAll | newsproject/src/main/java/com/redmath/newsproject/Config/ApiSecurityConfiguration.java:61-70 | off the login and logout endpoints, a token that fails validation gives 401 on every path, public ones included, where the same request without it is decided by the rules; on those endpoints the filter answers |
| Gateway.ExpiredTokenOnNewsListing | newsproject/src/main/java/com/redmath/newsproject/Config/ApiSecurityConfiguration.java:69 | GET /api/v1/news with an expired token gives 401 and without any token is permitted |
| Gateway.GymServerTokenDecides | GymManagementApp/GymServer/src/main/java/com/redmath/GymManagementApp/config/SecurityConfig.java:52-105 | a caller whose record loads with ROLE_R logs in and gets a token; within its lifetime every request bearing it off the login and logout endpoints is decided by the GymServer table for ROLE_R, after it every such request gives 401 |
| Gateway.GymServerAdminTokenOutlivesAccount | GymManagementApp/GymServer/src/main/java/com/redmath/GymManagementApp/config/SecurityConfig.java:74-80 | a token issued with ROLE_ADMIN permits every request off the login and logout endpoints until it expires, since the store is never consulted again |
| Gateway.RolelessTokenCrashesGymServer | GymManagementApp/GymServer/src/main/java/com/redmath/GymManagementApp/config/SecurityConfig.java:75-77 | a valid token without a role claim makes every GymServer request bearing it off the login and logout endpoints fail with a server error |
| Gateway.LegacyRereadsStore | GymManagementApp/src/main/java/com/redmath/GymManagementApp/config/SecurityConfig.java:61-64 | off the login and logout endpoints, a valid token is decided by the older table for the authorities the store holds for its subject at the time of the request |
| Gateway.LegacyDemotionTakesEffect | GymManagementApp/src/main/java/com/redmath/GymManagementApp/config/SecurityConfig.java:61-74 | the same token is permitted DELETE /trainers/7 while its subject is ADMIN and forbidden once the subject is TRAINER |
| Gateway.LegacyUnknownSubject | GymManagementApp/src/main/java/com/redmath/GymManagementApp/config/SecurityConfig.java:61-64 | a valid token whose subject is no longer stored gives 401 on every route off the login and logout endpoints |
| Gateway.NewsApiTokenOpensEverything | newsproject/src/main/java/com/redmath/newsproject/Config/ApiSecurityConfiguration.java:61-71 | off the login and logout endpoints, a valid token of a user who loads is permitted every request whatever the user's role; one of an unknown user gives 401; one whose name two users share gives a server error |
| Members.MembersOf | GymManagementApp/GymServer/src/main/java/com/redmath/GymManagementApp/member/MemberService.java:49-51 | the members of a trainer are exactly the stored members assigned to it |
| Members.GetMembersByTrainerId | GymManagementApp/GymServer/src/main/java/com/redmath/GymManagementApp/member/MemberService.java:49-51 | returns exactly the stored members assigned to the trainer, in table order |
| Members.TrainerExists | GymManagementApp/GymServer/src/main/java/com/redmath/GymManagementApp/member/MemberService.java:62-64 | true exactly when some stored member is assigned to the trainer, that is when its member list is non-empty; the trainer table is not read |
| Members.GetMemberById | GymManagementApp/GymServer/src/main/java/com/redmath/GymManagementApp/member/MemberController.java:32-37 | 200 with the stored member exactly when one has that identity, otherwise 404 |
| Members.GetMyProfile | GymManagementApp/GymServer/src/main/java/com/redmath/GymManagementApp/member/MemberController.java:60-65 | 200 with the caller's member exactly when exactly one member has the caller's name, 404 exactly when none has, and 500 exactly when two or more have |
| Members.DeleteMemberEndpoint | GymManagementApp/GymServer/src/main/java/com/redmath/GymManagementApp/member/MemberController.java:49-53 | always 204; afterwards the table holds exactly the other members |
| Members.DeleteThenGet | GymManagementApp/GymServer/src/main/java/com/redmath/GymManagementApp/member/MemberController.java:49-53 | after a delete the member is not found, and deleting again changes nothing |
| Members.WithProfile | GymManagementApp/GymServer/src/main/java/com/redmath/GymManagementApp/member/MemberController.java:79-81 | the profile columns are overwritten with the request's values, null ones included, and nothing else changes |
| Members.CompleteProfile | GymManagementApp/GymServer/src/main/java/com/redmath/GymManagementApp/member/MemberController.java:67-84 | 404 exactly when no member has the token's subject and 500 exactly when two have; 400 exactly when the one member exists and a trainer is named that no member is assigned to; otherwise 200, and the member is stored under its identity with the new profile |
| Members.CompleteProfileRehashes | GymManagementApp/GymServer/src/main/java/com/redmath/GymManagementApp/member/MemberController.java:83 | a successful completion stores the hash of the member's stored hash |
| Members.CompleteProfileLocksOut | GymManagementApp/GymServer/src/main/java/com/redmath/GymManagementApp/member/MemberController.java:79-83 | after a completion under the name of member "ann", whose password "pw" matched the stored hash, the member row's new hash no longer matches "pw" |
| Members.TrainerCheckReadsMembers | GymManagementApp/GymServer/src/main/java/com/redmath/GymManagementApp/member/MemberController.java:75-77 | a trainer that is stored but has no members yet is refused with 400 |
| Members.CompleteProfileFixed | GymManagementApp/GymServer/src/main/java/com/redmath/GymManagementApp/member/MemberController.java:67-84 | the corrected completion: the same 404 and 500 cases; 400 exactly when the named trainer is not in the trainer table; on success the stored hash is kept and the other partitions are untouched |
| Members.FixedKeepsPassword | GymManagementApp/GymServer/src/main/java/com/redmath/GymManagementApp/member/MemberController.java:83 | after the corrected completion the member's password still matches |
| Members.FixedAcceptsNewTrainer | GymManagementApp/GymServer/src/main/java/com/redmath/GymManagementApp/member/MemberController.java:75-77 | the corrected completion accepts any stored trainer, with or without members |
| NewsAuth.Register | newsproject/src/main/java/com/redmath/newsproject/Controller/AuthController.java:18-24 | fails exactly when the password is null; otherwise stores the body with role USER and the hashed password, and answers "User registered successfully!" |
| NewsAuth.RegisterThenLoad | newsproject/src/main/java/com/redmath/newsproject/Controller/AuthController.java:18-24 | a registration under a name no user has can then be loaded with its hash and the single authority USER |
| NewsAuth.RegisterOverwritesStoredUser | newsproject/src/main/java/com/redmath/newsproject/Controller/AuthController.java:22 | a body carrying a stored user's identity replaces that user, who is no longer stored with its old role |
| NewsAuth.RegisterTakenNameLocksOut | newsproject/src/main/java/com/redmath/newsproject/Controller/AuthController.java:18-24 | registering a taken name succeeds, adds one row, and from then on every lookup of that name fails as non-unique |
| NewsAuth.RegisterFixed | newsproject/src/main/java/com/redmath/newsproject/Controller/AuthController.java:18-24 | the corrected registration fails exactly when the password is null or the name is taken, a taken name with the username-taken error, and otherwise answers the fixed message |
| NewsAuth.RegisterFixedKeepsUsers | newsproject/src/main/java/com/redmath/newsproject/Controller/AuthController.java:22 | a successful corrected registration keeps every stored row and appends exactly one USER row with the hashed password |
| NewsAuth.RegisterFixedKeepsLogins | newsproject/src/main/java/com/redmath/newsproject/Controller/AuthController.java:18-24 | after a successful corrected registration no name is held twice that was not before, other users load as before, and the new name loads with its hash and USER |

## Left out

- HMAC-SHA256 signing, the key, token parsing and tampering: signing is an abstract encoder/decoder pair.
- BCrypt: the hash and the password check are uninterpreted parameters.
- Persistence, in several respects:
  - JPA entities are reduced to the columns the logic reads.
  - Unique constraints and the other entity fields are not modelled; a table may hold a username twice, and the finders then fail.
  - `Accounts.Save`: saving an identity that is not stored is modelled as an insert under a fresh identity, not as the provider's merge behaviour.
- CORS, frame-option headers, session creation policy, the Swagger setup and the entry points that turn an authentication failure into a redirect instead of a 401: these are framework wiring with no decision logic here.
- What the framework endpoints answer: the gates only say that `Handled` requests are answered by a filter. The outcome of `POST /login` is modelled separately (`Tokens.PasswordLogin`, `Tokens.IssueWithRole`); the login page, the logout effect on a session and the OAuth redirects are not.
- OAuth login and any provisioning of OAuth users: no success handler for it is part of this model. The Google demo's login is the session parameter of `Gateway.GoogleGate`.
- `Gateway.NewsWebGate`: a session caller is taken as given, however it logged in; Basic credentials for that same username are not checked again, as the framework does, and the session's authorities are not re-read.
- Which of the two news configurations wins at runtime: each is modelled as its own policy.
- Null usernames and null role columns: usernames and roles are strings.
- Path normalisation, trailing slashes and URL decoding: paths arrive already split into segments.
- `getAllMembers`, `getAdminById` and the controllers' create and update pass-throughs; the older application's admin, trainer and member services, which only set an identity and save.
- The front-end applications.
- `Tokens.IssueWithRole`: takes the first authority in list order; the framework's sorting of a user's authorities is not modelled, since every lookup here grants exactly one authority.
- `UserDetailsLookup.LoadLegacyGymUser`: its own contract only fixes the username; the full behaviour is stated by `UserDetailsLookup.LegacyLookupAgrees`.

## Findings

| source | as written | input that shows it | evidently intended | confidence | as-written member | corrected member |
|---|---|---|---|---|---|---|
| GymManagementApp/GymServer/src/main/java/com/redmath/GymManagementApp/member/MemberController.java:83 | completing a profile passes the loaded member, whose password field holds the stored hash, to `updateMember`, which hashes every non-empty password | the access rules let only ROLE_ADMIN tokens reach `POST /members/complete-profile`, so a member cannot trigger this on their own account; the input is an admin "ann" who is also stored as member "ann" with password "pw" stored as hash "#pw" (hash s ↦ "#" + s), or the controller called directly with subject "ann": the member row's stored hash becomes "##pw" and no longer matches "pw" | the stored hash is kept, as `updateMember` does for an empty password | not executed; high that the hash is rehashed, low that a deployed caller reaches it, since the admin row then answers every login of "ann" | Members.CompleteProfileLocksOut | Members.CompleteProfileFixed |
| GymManagementApp/GymServer/src/main/java/com/redmath/GymManagementApp/member/MemberService.java:62-64 | `trainerExists` asks whether some member is already assigned to the trainer | trainer 3 is stored but has no members; an admin token whose subject is also a stored member's username (or the controller called directly with that subject) completing the profile with trainer 3 gets 400 "Invalid trainer ID"; members themselves are refused with 403 by the access rules before the controller runs | the trainer identity is checked against the trainer table | not executed; medium | Members.TrainerCheckReadsMembers | Members.CompleteProfileFixed |
| newsproject/src/main/java/com/redmath/newsproject/Controller/AuthController.java:22 | registration saves the request body as it came, identity included | `POST /auth/register` with the identity of a stored administrator and any password turns that row into a USER with the new password | registration always creates a new user | not executed; medium, because the news user entity is not part of this model and its identity is assumed to be writable from the request body | NewsAuth.RegisterOverwritesStoredUser | NewsAuth.RegisterFixed |
| newsproject/src/main/java/com/redmath/newsproject/Controller/AuthController.java:18-24 | registration saves a new user without checking whether the name is taken | "bob" is stored; an anonymous `POST /auth/register` with username "bob" and any password succeeds, and from then on every login and every token of "bob" fails, since the finder matches two rows | a taken name is refused | not executed; medium, because a unique constraint on the username column, which is not part of this model, would make the save fail instead | NewsAuth.RegisterTakenNameLocksOut | NewsAuth.RegisterFixed |
