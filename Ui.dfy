/** The only parts of a rendered control the model keeps: whether a button is
    clickable and the text it shows. */
module Ui {

  datatype Button = Button(enabled: bool, caption: string)
}
