/** The optional value used throughout the model: `None` stands for an absent
    JavaScript value, or for a collaborator call that threw. */
module Wrappers {

  datatype Option<+T> = None | Some(value: T)

}
