/**
 * The request and response shapes of the auth routes (`src/schemas/user.py`)
 * and the role enumeration they refer to.
 */
module Schemas {
  import opened Codec

  /** `Role` of the users table: the closed set the role guard compares against. */
  datatype Role = Admin | Moderator | User

  /** `UserSchema`: the signup body. */
  datatype UserSchema = UserSchema(username: string, email: string, password: string)

  /** `UserResetPassword`: the body of the reset-password form. */
  datatype UserResetPassword = UserResetPassword(password1: string, password2: string)

  /** `Field(min_length=3, max_length=50)` on `UserSchema.username`. */
  predicate UsernameLength(s: string)
  {
    3 <= |s| <= 50
  }

  /** `Field(min_length=6, max_length=8)` on every plaintext password field. */
  predicate PasswordLength(s: string)
  {
    6 <= |s| <= 8
  }

  /** A signup body the framework lets through to the handler. */
  predicate ValidUserSchema(b: UserSchema)
  {
    UsernameLength(b.username) && PasswordLength(b.password)
  }

  /** A reset-password body the framework lets through to the handler. */
  predicate ValidUserResetPassword(b: UserResetPassword)
  {
    PasswordLength(b.password1) && PasswordLength(b.password2)
  }

  /** The field names pydantic reports for a signup body that fails validation. */
  function UserSchemaErrors(b: UserSchema): (fields: set<string>)
    ensures fields == {} <==> ValidUserSchema(b)
    ensures "username" in fields <==> !(3 <= |b.username| <= 50)
    ensures "password" in fields <==> !(6 <= |b.password| <= 8)
    ensures fields <= {"username", "password"}
  {
    (if UsernameLength(b.username) then {} else {"username"})
    + (if PasswordLength(b.password) then {} else {"password"})
  }

  /** The field names pydantic reports for a reset-password body that fails validation. */
  function UserResetPasswordErrors(b: UserResetPassword): (fields: set<string>)
    ensures fields == {} <==> ValidUserResetPassword(b)
    ensures "password1" in fields <==> !(6 <= |b.password1| <= 8)
    ensures "password2" in fields <==> !(6 <= |b.password2| <= 8)
    ensures fields <= {"password1", "password2"}
  {
    (if PasswordLength(b.password1) then {} else {"password1"})
    + (if PasswordLength(b.password2) then {} else {"password2"})
  }

  /** `UserResponse`: what signup returns. It has no field for the hash or any token. */
  datatype UserResponse = UserResponse(id: nat, username: string, email: string, role: Role)

  /** `TokenSchema`: what login and refresh return. */
  datatype TokenSchema = TokenSchema(accessToken: Token, refreshToken: Token, tokenType: string)

  /** A `TokenSchema` built with `token_type` left at its default. */
  function BearerPair(access: Token, refresh: Token): (t: TokenSchema)
    ensures t.tokenType == "bearer"
    ensures t.accessToken == access && t.refreshToken == refresh
  {
    TokenSchema(access, refresh, "bearer")
  }
}
