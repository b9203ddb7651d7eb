/**
 * Sign-up validation and creation (users/serializers.py). The field-validated
 * attrs (each field already parsed and checked on its own) are a dictionary
 * from field name to text; the account manager's
 * `create_user` is outside the model and is represented by the keyword
 * arguments it receives.
 */
module UserSerializers {
  import opened Results

  /** A validation error attached to a field. */
  datatype ValidationError = ValidationError(field: string, message: string)

  /**
   * UserRegistrationSerializer.validate. Both password fields are required by
   * the field declarations, so they are present by the time this runs.
   */
  function Validate(attrs: map<string, string>): (r: Result<map<string, string>, ValidationError>)
    requires "password" in attrs && "password2" in attrs
    ensures r.Ok? <==> attrs["password"] == attrs["password2"]
    ensures r.Ok? ==> r.value == attrs
    ensures r.Err? ==> r.error == ValidationError("password", "Password fields didn't match.")
  {
    if attrs["password"] != attrs["password2"] then
      Err(ValidationError("password", "Password fields didn't match."))
    else
      Ok(attrs)
  }

  /** What `create_user` is called with: its keyword arguments. */
  datatype CreateUserCall = CreateUserCall(kwargs: map<string, string>)

  /** The serializer's dictionary of validated fields, which `create` edits in place. */
  class ValidatedData {
    var entries: map<string, string>

    constructor (entries: map<string, string>)
      ensures this.entries == entries
    {
      this.entries := entries;
    }

    /** `dict.pop(key)` without a default: the key must be there. */
    method Pop(key: string) returns (value: string)
      requires key in entries
      modifies this
      ensures value == old(entries)[key]
      ensures entries == old(entries) - {key}
    {
      value := entries[key];
      entries := entries - {key};
    }
  }

  /**
   * UserRegistrationSerializer.create: remove the confirmation field from the
   * validated data, then hand every remaining field, the password included,
   * to `create_user` unchanged.
   */
  method Create(data: ValidatedData) returns (call: CreateUserCall)
    requires "password2" in data.entries
    modifies data
    ensures data.entries == old(data.entries) - {"password2"}
    ensures call.kwargs.Keys == old(data.entries).Keys - {"password2"}
    ensures forall k :: k in call.kwargs ==> call.kwargs[k] == old(data.entries)[k]
  {
    var _ := data.Pop("password2");
    call := CreateUserCall(data.entries);
  }

  /**
   * The serializer's save path from the field-validated attrs on: validate
   * them and, when the passwords agree, create the user from them.
   */
  method ValidateAndCreate(attrs: map<string, string>) returns (r: Result<CreateUserCall, ValidationError>)
    requires "password" in attrs && "password2" in attrs
    ensures r.Ok? <==> attrs["password"] == attrs["password2"]
    ensures r.Err? ==> r.error.field == "password"
    ensures r.Ok? ==> "password2" !in r.value.kwargs && r.value.kwargs.Keys == attrs.Keys - {"password2"}
    ensures r.Ok? ==> forall k :: k in r.value.kwargs ==> r.value.kwargs[k] == attrs[k]
  {
    var checked := Validate(attrs);
    if checked.Err? {
      return Err(checked.error);
    }
    var data := new ValidatedData(checked.value);
    var call := Create(data);
    r := Ok(call);
  }
}
