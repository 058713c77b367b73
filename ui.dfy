/** The notifications the screens raise; they change no state the model keeps. */
module Ui {

  /** A toast: its title, its description, and whether it is shown as destructive. */
  datatype Toast = Toast(title: string, description: string, destructive: bool)
}
