/** Every error the library reports is a `std::invalid_argument` carrying a message;
    `Result` stands for "returns a value" or "throws with this message". */
module Wrappers {

  datatype Result<T> = Ok(value: T) | Err(message: string)
}
