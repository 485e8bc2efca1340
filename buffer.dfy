/**
 * The output buffer of the generator: a C string that starts empty and grows
 * by one command at a time (`add_command_to_gcode`).
 */
module Buffer {
  import opened CStrings

  class CommandBuffer {
    /** The characters before the terminating NUL. */
    var text: string

    /** The buffer is a well-formed C string: no NUL before its terminator. */
    ghost predicate Valid()
      reads this
    {
      '\0' !in text
    }

    /** `malloc(1)` followed by writing the terminator: the empty string. */
    constructor ()
      ensures Valid() && text == ""
    {
      text := "";
    }

    /**
     * `strcat` of command onto the buffer: the command's characters up to its
     * first NUL are added at the end, and what was there is kept as a prefix.
     */
    method Append(command: string)
      requires Valid()
      modifies this
      ensures Valid()
      ensures text == old(text) + command[..Strlen(command)]
      ensures '\0' !in command ==> text == old(text) + command
    {
      text := text + command[..Strlen(command)];
    }
  }
}
