module Passwords {
  /** bcrypt, as an injective hash. */
  datatype PasswordHash = Bcrypt(password: string)
}
